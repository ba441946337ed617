/** UTF-8 well-formedness (sections 3 and 4 of RFC 3629) and the rune-aligned chunking of
    oversized history fields. */
module Utf8 {
  predicate RuneStart(c: char) {
    !(0x80 <= c as int <= 0xBF)
  }

  predicate Byte(c: char, lo: int, hi: int) {
    lo <= c as int <= hi
  }

  predicate Tail(c: char) {
    Byte(c, 0x80, 0xBF)
  }

  /** Length of the well-formed character at the front of `s`, or 0 when there is none. */
  function RuneLength(s: string): (n: nat)
    ensures n <= 4 && n <= |s|
    ensures n > 0 ==> RuneStart(s[0]) && forall k :: 1 <= k < n ==> !RuneStart(s[k])
  {
    if |s| >= 1 && Byte(s[0], 0x00, 0x7F) then 1
    else if |s| >= 2 && Byte(s[0], 0xC2, 0xDF) && Tail(s[1]) then 2
    else if |s| >= 3 && Tail(s[1]) && Tail(s[2]) && ThreeByteLead(s[0], s[1]) then 3
    else if |s| >= 4 && Tail(s[1]) && Tail(s[2]) && Tail(s[3]) && FourByteLead(s[0], s[1]) then 4
    else 0
  }

  predicate ThreeByteLead(a: char, b: char) {
    || (Byte(a, 0xE0, 0xE0) && Byte(b, 0xA0, 0xBF))
    || Byte(a, 0xE1, 0xEC)
    || (Byte(a, 0xED, 0xED) && Byte(b, 0x80, 0x9F))
    || Byte(a, 0xEE, 0xEF)
  }

  predicate FourByteLead(a: char, b: char) {
    || (Byte(a, 0xF0, 0xF0) && Byte(b, 0x90, 0xBF))
    || Byte(a, 0xF1, 0xF3)
    || (Byte(a, 0xF4, 0xF4) && Byte(b, 0x80, 0x8F))
  }

  predicate Valid(s: string)
    decreases |s|
  {
    s == [] || (RuneLength(s) > 0 && Valid(s[RuneLength(s)..]))
  }

  /** Only the bytes of the first character matter to its length. */
  lemma {:induction false} RuneLengthLocal(s: string, t: string)
    requires RuneLength(s) > 0
    requires |t| >= RuneLength(s) && t[..RuneLength(s)] == s[..RuneLength(s)]
    ensures RuneLength(t) == RuneLength(s)
  {
    var n := RuneLength(s);
    assert forall k :: 0 <= k < n ==> t[k] == t[..n][k] == s[..n][k] == s[k];
  }

  /** Cutting well-formed text in front of a character keeps both halves well-formed. */
  lemma {:induction false} CutAtRuneStart(s: string, k: nat)
    requires Valid(s) && k <= |s|
    requires k == |s| || RuneStart(s[k])
    ensures Valid(s[..k]) && Valid(s[k..])
    decreases |s|
  {
    if k == 0 {
      assert s[..0] == "" && s[0..] == s;
    } else {
      var n := RuneLength(s);
      assert k >= n;
      CutAtRuneStart(s[n..], k - n);
      var head := s[..k];
      assert head[..n] == s[..n];
      RuneLengthLocal(s, head);
      assert head[n..] == s[n..][..k - n];
      assert s[n..][k - n..] == s[k..];
    }
  }

  /** Well-formed text never has four continuation bytes in a row. */
  lemma {:induction false} RuneStartNearby(s: string, i: nat) returns (j: nat)
    requires Valid(s) && i + 3 < |s|
    ensures i <= j <= i + 3 && RuneStart(s[j])
    decreases |s|
  {
    var n := RuneLength(s);
    if i == 0 {
      j := 0;
    } else if i < n {
      j := n;
      assert s[n..] != [] && RuneLength(s[n..]) > 0;
      assert s[n..][0] == s[n];
    } else {
      j := RuneStartNearby(s[n..], i - n);
      assert s[n..][j] == s[n + j];
      j := n + j;
    }
  }
}

module Chunks {
  import opened Prelude
  import Utf8

  /** historyContentChunkBytes. */
  const CHUNK_BYTES := 262144
  /** historyInlineRefThreshold. */
  const INLINE_THRESHOLD := 65536
  /** historyFieldPreviewBytes. */
  const PREVIEW_BYTES := 4096

  function BackOff(s: string, off: nat, end: nat): (e: nat)
    requires off <= end < |s|
    ensures off <= e <= end
    ensures e == off || Utf8.RuneStart(s[e])
    ensures forall j :: e < j <= end ==> !Utf8.RuneStart(s[j])
    decreases end
  {
    if end > off && !Utf8.RuneStart(s[end]) then BackOff(s, off, end - 1) else end
  }

  /** historyContentChunkEnd as a function of the text and the chunk's first offset. */
  function ChunkEnd(s: string, off: nat): (e: nat)
    requires off <= |s|
    ensures off <= e <= |s| && e - off <= CHUNK_BYTES
  {
    if off + CHUNK_BYTES >= |s| then |s| else BackOff(s, off, off + CHUNK_BYTES)
  }

  method HistoryContentChunkEnd(s: string, off: nat) returns (end: nat)
    requires off <= |s|
    ensures end == ChunkEnd(s, off)
  {
    end := off + CHUNK_BYTES;
    if end >= |s| {
      return |s|;
    }
    while end > off && !Utf8.RuneStart(s[end])
      invariant off <= end < |s|
      invariant BackOff(s, off, end) == BackOff(s, off, off + CHUNK_BYTES)
    {
      end := end - 1;
    }
  }

  /** clipStringBytes: the longest prefix of at most `max` bytes ending before a character. */
  method ClipStringBytes(s: string, max: int) returns (p: string)
    ensures p == Clip(s, max)
  {
    if max <= 0 {
      return "";
    }
    if |s| <= max {
      return s;
    }
    var m := max;
    while m > 0 && !Utf8.RuneStart(s[m])
      invariant 0 <= m < |s|
      invariant BackOff(s, 0, m) == BackOff(s, 0, max)
    {
      m := m - 1;
    }
    return s[..m];
  }

  function Clip(s: string, max: int): (p: string)
    ensures |p| <= |s| && p == s[..|p|] && (max >= 0 ==> |p| <= max)
  {
    if max <= 0 then "" else if |s| <= max then s else s[..BackOff(s, 0, max)]
  }

  /** A clipped preview of well-formed text is well-formed, and is the longest such prefix
      within the limit. */
  lemma {:induction false} ClipIsLongestValidPrefix(s: string, max: nat, k: nat)
    requires Utf8.Valid(s)
    ensures Utf8.Valid(Clip(s, max))
    ensures k <= max && k <= |s| && (k == |s| || Utf8.RuneStart(s[k])) ==> k <= |Clip(s, max)|
  {
    if 0 < max < |s| {
      var m := BackOff(s, 0, max);
      assert m == 0 ==> Utf8.RuneStart(s[0]);
      Utf8.CutAtRuneStart(s, m);
    }
  }

  // ---------------------------------------------------------------------------------
  // The chunk loop
  // ---------------------------------------------------------------------------------

  /** First offset of chunk `n`: the loop variable of historyContentChunkCount after `n` rounds. */
  function Offset(s: string, n: nat): (off: nat)
    ensures off <= |s|
  {
    if n == 0 then 0 else ChunkEnd(s, Offset(s, n - 1))
  }

  /** The loop of historyContentChunkCount reaches the end of the text. */
  ghost predicate LoopStops(s: string) {
    exists n: nat :: Offset(s, n) == |s|
  }

  /** No run of CHUNK_BYTES continuation bytes ends strictly inside the text. */
  predicate Splits(s: string) {
    forall off :: 0 <= off < |s| - CHUNK_BYTES ==> HasStart(s, off)
  }

  predicate HasStart(s: string, off: nat)
    requires off + CHUNK_BYTES < |s|
  {
    exists j :: off < j <= off + CHUNK_BYTES && Utf8.RuneStart(s[j])
  }

  lemma {:induction false} ValidSplits(s: string)
    requires Utf8.Valid(s)
    ensures Splits(s)
  {
    forall off: nat | off + CHUNK_BYTES < |s|
      ensures HasStart(s, off)
    {
      var j := Utf8.RuneStartNearby(s, off + 1);
      assert Utf8.RuneStart(s[j]);
    }
  }

  lemma {:induction false} ChunkProgress(s: string, off: nat)
    requires Splits(s) && off < |s|
    ensures off < ChunkEnd(s, off)
  {
    if off + CHUNK_BYTES < |s| {
      assert HasStart(s, off);
    }
  }

  lemma {:induction false} OffsetGrows(s: string, n: nat)
    requires Splits(s)
    ensures Offset(s, n) >= Min(n, |s|)
  {
    if n > 0 {
      OffsetGrows(s, n - 1);
      if Offset(s, n - 1) < |s| {
        ChunkProgress(s, Offset(s, n - 1));
      }
    }
  }

  /** Where a run of continuation bytes that covers `off + 1 ..` begins. */
  lemma {:induction false} RunHead(s: string, off: nat) returns (r: nat)
    requires off + CHUNK_BYTES < |s| && !HasStart(s, off)
    ensures r <= off && (r == 0 || Utf8.RuneStart(s[r]))
    ensures forall j :: r < j <= off + CHUNK_BYTES ==> !Utf8.RuneStart(s[j])
  {
    r := off;
    while r > 0 && !Utf8.RuneStart(s[r])
      invariant r <= off
      invariant forall j :: r < j <= off + CHUNK_BYTES ==> !Utf8.RuneStart(s[j])
    {
      r := r - 1;
    }
  }

  lemma {:induction false} NeverPassesRun(s: string, r: nat, n: nat)
    requires r + CHUNK_BYTES < |s| && (r == 0 || Utf8.RuneStart(s[r]))
    requires forall j :: r < j <= r + CHUNK_BYTES ==> !Utf8.RuneStart(s[j])
    ensures Offset(s, n) <= r
  {
    if n > 0 {
      NeverPassesRun(s, r, n - 1);
      var c := Offset(s, n - 1);
      assert c + CHUNK_BYTES < |s|;
      assert ChunkEnd(s, c) == BackOff(s, c, c + CHUNK_BYTES);
    }
  }

  /** The chunk loop stops exactly on the texts without an overlong continuation run; on
      every other text the source loops forever at the head of the first such run. */
  lemma {:induction false} ChunkLoopStopsIff(s: string)
    ensures LoopStops(s) <==> Splits(s)
  {
    if Splits(s) {
      OffsetGrows(s, |s|);
      assert Offset(s, |s|) == |s|;
    } else {
      var off: nat :| off + CHUNK_BYTES < |s| && !HasStart(s, off);
      var r := RunHead(s, off);
      forall n: nat ensures Offset(s, n) != |s| {
        NeverPassesRun(s, r, n);
      }
    }
  }

  /** A text on which the loop of the source does not stop. */
  lemma {:induction false} ContinuationRunNeverStops(s: string)
    requires |s| > CHUNK_BYTES && forall j :: 0 <= j < |s| ==> s[j] == '\U{80}'
    ensures !LoopStops(s)
  {
    ChunkLoopStopsIff(s);
    assert !HasStart(s, 0);
  }

  /** Number of chunks from offset `off` on. */
  function CountFrom(s: string, off: nat): nat
    requires off <= |s| && Splits(s)
    decreases |s| - off
  {
    if off == |s| then 0
    else
      ChunkProgress(s, off);
      1 + CountFrom(s, ChunkEnd(s, off))
  }

  /** historyContentChunkCount; texts on which the loop does not stop have no count. */
  function ChunkCount(s: string): nat {
    if !Splits(s) then 0 else if s == "" then 1 else CountFrom(s, 0)
  }

  method HistoryContentChunkCount(s: string) returns (chunks: nat)
    requires Splits(s)
    ensures chunks == ChunkCount(s)
  {
    if |s| == 0 {
      return 1;
    }
    chunks := 0;
    var off := 0;
    while off < |s|
      invariant off <= |s|
      invariant chunks + CountFrom(s, off) == CountFrom(s, 0)
      decreases |s| - off
    {
      ChunkProgress(s, off);
      off := HistoryContentChunkEnd(s, off);
      chunks := chunks + 1;
    }
  }

  lemma {:induction false} CountFromOffset(s: string, n: nat)
    requires Splits(s)
    requires n <= CountFrom(s, 0)
    ensures CountFrom(s, Offset(s, n)) == CountFrom(s, 0) - n
  {
    if n > 0 {
      CountFromOffset(s, n - 1);
    }
  }

  /** The count is the first round at which the loop variable reaches the end. */
  lemma {:induction false} CountIsFirstEnd(s: string, n: nat)
    requires Splits(s) && s != ""
    ensures Offset(s, ChunkCount(s)) == |s|
    ensures n < ChunkCount(s) ==> Offset(s, n) < |s|
  {
    CountFromOffset(s, ChunkCount(s));
    if n < ChunkCount(s) {
      CountFromOffset(s, n);
    }
  }

  function ChunkData(s: string, n: nat): string {
    s[Offset(s, n)..Offset(s, n + 1)]
  }

  /** historyContentChunkAt. */
  method HistoryContentChunkAt(s: string, index: int) returns (data: string, chunks: nat)
    requires Splits(s)
    ensures data == ChunkData(s, Max(index, 0)) && chunks == ChunkCount(s)
  {
    hide Splits, ChunkEnd, ChunkCount;
    chunks := HistoryContentChunkCount(s);
    var last := if index < 0 then 0 else index;
    var off := 0;
    var i := 0;
    while i < last && off < |s|
      invariant 0 <= i <= last && off == Offset(s, i)
    {
      off := HistoryContentChunkEnd(s, off);
      i := i + 1;
    }
    if off >= |s| {
      EndIsFixed(s, i, last);
      EndIsFixed(s, i, last + 1);
      return "", chunks;
    }
    var end := HistoryContentChunkEnd(s, off);
    return s[off..end], chunks;
  }

  lemma {:induction false} EndIsFixed(s: string, i: nat, j: nat)
    requires i <= j && Offset(s, i) == |s|
    ensures Offset(s, j) == |s|
  {
    if i < j {
      EndIsFixed(s, i, j - 1);
    }
  }

  /** The first `n` chunks of a text. */
  function FirstChunks(s: string, n: nat): seq<string> {
    seq(n, k requires 0 <= k < n => ChunkData(s, k))
  }

  lemma {:induction false} TakeMore(s: string, a: nat, b: nat)
    requires a <= b <= |s|
    ensures s[..a] + s[a..b] == s[..b]
  {
  }

  lemma {:induction false} FirstChunksJoin(s: string, n: nat)
    ensures Flatten(FirstChunks(s, n)) == s[..Offset(s, n)]
  {
    hide BackOff, ChunkEnd;
    if n > 0 {
      FirstChunksJoin(s, n - 1);
      assert FirstChunks(s, n) == FirstChunks(s, n - 1) + [ChunkData(s, n - 1)];
      FlattenAppend(FirstChunks(s, n - 1), [ChunkData(s, n - 1)]);
      FlattenSingle(ChunkData(s, n - 1));
      TakeMore(s, Offset(s, n - 1), Offset(s, n));
    }
  }

  /** Fetching every chunk of a field and joining them gives the field back. */
  lemma {:induction false} ChunksRoundTrip(s: string)
    requires Splits(s)
    ensures Flatten(FirstChunks(s, ChunkCount(s))) == s
    ensures forall n: nat :: |ChunkData(s, n)| <= 256 * 1024
    ensures forall n: nat :: n < ChunkCount(s) && s != "" ==> ChunkData(s, n) != ""
    ensures ChunkCount(s) >= 1 && (s == "" ==> ChunkCount(s) == 1)
  {
    FirstChunksJoin(s, ChunkCount(s));
    if s != "" {
      CountIsFirstEnd(s, 0);
    }
    forall n: nat | n < ChunkCount(s) && s != ""
      ensures ChunkData(s, n) != ""
    {
      CountIsFirstEnd(s, n);
      ChunkProgress(s, Offset(s, n));
    }
  }

  /** Every chunk of well-formed text is well-formed: chunks never split a character. */
  lemma {:induction false} ChunkIsValid(s: string, n: nat)
    requires Utf8.Valid(s)
    ensures Offset(s, n) == |s| || Utf8.RuneStart(s[Offset(s, n)])
    ensures Utf8.Valid(ChunkData(s, n))
  {
    hide Utf8.Valid, ChunkEnd, BackOff;
    OffsetOnRuneStart(s, n);
    OffsetOnRuneStart(s, n + 1);
    var lo, hi := Offset(s, n), Offset(s, n + 1);
    Utf8.CutAtRuneStart(s, lo);
    assert s[lo..][..hi - lo] == s[lo..hi];
    Utf8.CutAtRuneStart(s[lo..], hi - lo);
  }

  lemma {:induction false} OffsetOnRuneStart(s: string, n: nat)
    requires Utf8.Valid(s)
    ensures Offset(s, n) == |s| || Utf8.RuneStart(s[Offset(s, n)])
  {
    if n > 0 {
      OffsetOnRuneStart(s, n - 1);
    }
  }
}
