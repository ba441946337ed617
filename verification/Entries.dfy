/** Entry ids: `s<session>:r<epoch>:m<message>:o<sub>`, and `s<session>:r0:e<row>:o0` for
    rows of legacy event-format sessions. */
module EntryIds {
  import opened Prelude

  predicate Digit(c: char) {
    '0' <= c <= '9'
  }

  function Decimal(n: nat): (s: string)
    ensures s != "" && forall k :: 0 <= k < |s| ==> Digit(s[k])
  {
    var last := ['0' + (n % 10) as char];
    if n < 10 then last else Decimal(n / 10) + last
  }

  function DecimalInt(n: int): string {
    if n < 0 then "-" + Decimal(-n) else Decimal(n)
  }

  function DigitValue(c: char): nat
    requires Digit(c)
  {
    c as int - '0' as int
  }

  /** Value of a digit string. */
  function Value(s: string): nat
    requires forall k :: 0 <= k < |s| ==> Digit(s[k])
  {
    if s == "" then 0 else Value(s[..|s| - 1]) * 10 + DigitValue(s[|s| - 1])
  }

  lemma {:induction false} ValueOfDecimal(n: nat)
    ensures Value(Decimal(n)) == n
  {
    var s := Decimal(n);
    if n >= 10 {
      ValueOfDecimal(n / 10);
      assert s[..|s| - 1] == Decimal(n / 10);
    } else {
      assert s[..|s| - 1] == "";
    }
  }

  function LeadingDigits(s: string): (d: string)
    ensures |d| <= |s| && d == s[..|d|] && forall k :: 0 <= k < |d| ==> Digit(d[k])
  {
    if s != "" && Digit(s[0]) then [s[0]] + LeadingDigits(s[1..]) else ""
  }

  lemma {:induction false} AllDigitsLead(s: string)
    requires forall k :: 0 <= k < |s| ==> Digit(s[k])
    ensures LeadingDigits(s) == s
  {
    if s != "" {
      AllDigitsLead(s[1..]);
    }
  }

  /** fmt.Sscanf with a one-letter tag followed by %d: trailing text is ignored. */
  function ScanTagged(s: string, tag: char): Option<int> {
    if s == "" || s[0] != tag then None
    else
      var rest := s[1..];
      var signed := rest != "" && (rest[0] == '-' || rest[0] == '+');
      var digits := LeadingDigits(if signed then rest[1..] else rest);
      if digits == "" then None
      else Some(if signed && rest[0] == '-' then -(Value(digits) as int) else Value(digits))
  }

  lemma {:induction false} ScanFormatted(n: nat, tag: char)
    ensures ScanTagged([tag] + Decimal(n), tag) == Some(n)
  {
    var s := [tag] + Decimal(n);
    assert s[1..] == Decimal(n);
    assert Digit(Decimal(n)[0]);
    AllDigitsLead(Decimal(n));
    ValueOfDecimal(n);
  }

  /** The scan reads a number with any sign, and ignores what follows it. */
  lemma {:induction false} ScanSigned(sign: string, n: nat, tag: char, rest: string)
    requires (sign == "" || sign == "+" || sign == "-") && (rest == "" || !Digit(rest[0]))
    ensures ScanTagged([tag] + (sign + (Decimal(n) + rest)), tag) == Some(if sign == "-" then 0 - n else n)
  {
    hide Decimal, Value, LeadingDigits;
    ValueOfDecimal(n);
    DigitsLead(Decimal(n), rest);
    var number := Decimal(n) + rest;
    assert ([tag] + (sign + number))[1..] == sign + number;
    assert sign == "" ==> sign + number == number;
    assert sign != "" ==> (sign + number)[1..] == number && (sign + number)[0] == sign[0];
    assert number[0] == Decimal(n)[0] && Digit(number[0]);
  }

  lemma {:induction false} DigitsLead(digits: string, rest: string)
    requires forall k :: 0 <= k < |digits| ==> Digit(digits[k])
    requires rest == "" || !Digit(rest[0])
    ensures LeadingDigits(digits + rest) == digits
  {
    if digits == "" {
      assert digits + rest == rest;
    } else {
      DigitsLead(digits[1..], rest);
      assert (digits + rest)[1..] == digits[1..] + rest;
    }
  }

  /** strings.Split on ':'. */
  function Split(s: string): (parts: seq<string>)
    ensures |parts| >= 1
  {
    if s == "" then [""]
    else
      var rest := Split(s[1..]);
      if s[0] == ':' then [""] + rest else [[s[0]] + rest[0]] + rest[1..]
  }

  lemma {:induction false} SplitHead(a: string, b: string)
    requires ':' !in a
    ensures Split(a + ":" + b) == [a] + Split(b)
  {
    var s := a + ":" + b;
    if a == "" {
      assert s[1..] == b;
    } else {
      assert s[1..] == a[1..] + ":" + b;
      SplitHead(a[1..], b);
      assert [a[0]] + a[1..] == a;
    }
  }

  lemma {:induction false} SplitWhole(a: string)
    requires ':' !in a
    ensures Split(a) == [a]
  {
    if a != "" {
      SplitWhole(a[1..]);
      assert [a[0]] + a[1..] == a;
    }
  }

  /** Splitting behind a prefix gives at least as many parts. */
  lemma {:induction false} SplitBehind(a: string, b: string)
    ensures |Split(a + b)| >= |Split(b)|
    ensures ':' in a ==> |Split(a + b)| > |Split(b)|
  {
    if a == "" {
      assert a + b == b;
    } else {
      assert (a + b)[1..] == a[1..] + b;
      SplitBehind(a[1..], b);
    }
  }

  function Tail(epoch: int, tag: char, index: nat, sub: nat): string {
    "r" + DecimalInt(epoch) + ":" + ([tag] + Decimal(index) + ":" + ("o" + Decimal(sub)))
  }

  function Format(session: string, epoch: int, tag: char, index: nat, sub: nat): string {
    "s" + session + ":" + Tail(epoch, tag, index, sub)
  }

  datatype Parsed = Message(index: int, sub: int) | LegacyRow(row: int) | Malformed

  /** parseHistoryEntryID. */
  function Parse(id: string): Parsed {
    var parts := Split(id);
    if |parts| != 4 then Malformed
    else if ScanTagged(parts[2], 'm').Some? then
      if ScanTagged(parts[3], 'o').Some? then Message(ScanTagged(parts[2], 'm').value, ScanTagged(parts[3], 'o').value)
      else Malformed
    else if ScanTagged(parts[2], 'e').Some? then LegacyRow(ScanTagged(parts[2], 'e').value)
    else Malformed
  }

  /** entryIDSession. */
  function SessionOf(id: string): string {
    var parts := Split(id);
    if |parts| < 2 then "" else if HasPrefix(parts[0], "s") then parts[0][1..] else parts[0]
  }

  lemma {:induction false} TailParts(epoch: int, tag: char, index: nat, sub: nat)
    requires tag != ':'
    ensures Split(Tail(epoch, tag, index, sub)) == ["r" + DecimalInt(epoch), [tag] + Decimal(index), "o" + Decimal(sub)]
  {
    assert ':' !in "r" + DecimalInt(epoch) && ':' !in [tag] + Decimal(index) && ':' !in "o" + Decimal(sub);
    SplitHead("r" + DecimalInt(epoch), [tag] + Decimal(index) + ":" + ("o" + Decimal(sub)));
    SplitHead([tag] + Decimal(index), "o" + Decimal(sub));
    SplitWhole("o" + Decimal(sub));
  }

  lemma {:induction false} SplitOfFormat(session: string, epoch: int, tag: char, index: nat, sub: nat)
    requires tag != ':' && ':' !in session
    ensures Split(Format(session, epoch, tag, index, sub)) ==
            ["s" + session, "r" + DecimalInt(epoch), [tag] + Decimal(index), "o" + Decimal(sub)]
  {
    TailParts(epoch, tag, index, sub);
    SplitHead("s" + session, Tail(epoch, tag, index, sub));
  }

  lemma {:induction false} SplitOfColonFormat(session: string, epoch: int, tag: char, index: nat, sub: nat)
    requires tag != ':' && ':' in session
    ensures |Split(Format(session, epoch, tag, index, sub))| > 4
  {
    var tail := Tail(epoch, tag, index, sub);
    TailParts(epoch, tag, index, sub);
    SplitHead("", tail);
    assert "" + ":" + tail == ":" + tail;
    var k :| 0 <= k < |session| && session[k] == ':';
    assert ("s" + session)[k + 1] == ':';
    SplitBehind("s" + session, ":" + tail);
    assert "s" + session + (":" + tail) == Format(session, epoch, tag, index, sub);
  }

  /** An emitted entry id parses back to its message and sub-order, and names its session,
      exactly when the session id holds no colon. */
  lemma {:induction false} ParseFormatIff(session: string, epoch: int, index: nat, sub: nat)
    ensures Parse(Format(session, epoch, 'm', index, sub)) == Message(index, sub) <==> ':' !in session
    ensures ':' !in session ==> SessionOf(Format(session, epoch, 'm', index, sub)) == session
  {
    if ':' in session {
      SplitOfColonFormat(session, epoch, 'm', index, sub);
    } else {
      SplitOfFormat(session, epoch, 'm', index, sub);
      ScanFormatted(index, 'm');
      ScanFormatted(sub, 'o');
      assert ("s" + session)[1..] == session;
    }
  }

  /** The id of an event-format row parses back to its row. */
  lemma {:induction false} ParseRow(session: string, epoch: int, row: nat, sub: nat)
    requires ':' !in session
    ensures Parse(Format(session, epoch, 'e', row, sub)) == LegacyRow(row)
    ensures SessionOf(Format(session, epoch, 'e', row, sub)) == session
  {
    hide Split, Format;
    SplitOfFormat(session, epoch, 'e', row, sub);
    ScanFormatted(row, 'e');
    assert ("s" + session)[..1] == "s" && ("s" + session)[1..] == session;
  }
}

/** Display rows as page entries: oversized fields become previews with content refs. */
module Entries {
  import opened Prelude
  import opened HistoryModel
  import opened HistorySource
  import opened Chunks
  import EntryIds
  import Utf8

  datatype Field =
    | Content | Reasoning | Submit | Detail | Code | Summary | Archive | ResultError
    | ToolArguments | ToolSubject | ToolSummary | ToolDiff

  /** HistoryContentRef. */
  datatype ContentRef = ContentRef(
    entryID: string, field: Field, size: nat, chunks: nat, toolCallID: string,
    revision: int, revKnown: bool, digest: string)

  /** HistoryEntry. */
  datatype Entry = Entry(entryID: string, turn: int, order: nat, message: Row, refs: seq<ContentRef>)

  /** truncateHistoryField, its inline part. */
  function Inline(value: string): string {
    if |value| <= INLINE_THRESHOLD then value else Clip(value, PREVIEW_BYTES)
  }

  function RefOf(src: Source, id: string, field: Field, toolCallID: string, value: string): seq<ContentRef> {
    if |value| <= INLINE_THRESHOLD then []
    else [ContentRef(id, field, |value|, ChunkCount(value), toolCallID, src.revision, src.revKnown, src.digest)]
  }

  function CallField(call: RowCall, field: Field): string
    requires field in CALL_FIELDS
  {
    match field
    case ToolArguments => call.arguments
    case ToolSubject => call.subject
    case ToolSummary => call.summary
    case ToolDiff => call.diff
  }

  function RowField(row: Row, field: Field): string
    requires field in ROW_FIELDS
  {
    match field
    case Content => row.content
    case Reasoning => row.reasoning
    case Submit => row.submitText
    case Detail => row.detail
    case Code => row.code
    case Summary => row.summary
    case Archive => row.archive
    case ResultError => row.toolResultError
  }

  const ROW_FIELDS := [Content, Reasoning, Submit, Detail, Code, Summary, Archive, ResultError]
  const CALL_FIELDS := [ToolArguments, ToolSubject, ToolSummary, ToolDiff]

  function RowRefs(src: Source, id: string, row: Row, n: nat): seq<ContentRef>
    requires n <= |ROW_FIELDS|
  {
    if n == 0 then []
    else RowRefs(src, id, row, n - 1) + RefOf(src, id, ROW_FIELDS[n - 1], "", RowField(row, ROW_FIELDS[n - 1]))
  }

  function CallRefs(src: Source, id: string, call: RowCall, n: nat): seq<ContentRef>
    requires n <= |CALL_FIELDS|
  {
    if n == 0 then []
    else
      var field := CALL_FIELDS[n - 1];
      CallRefs(src, id, call, n - 1) + RefOf(src, id, field, call.id, CallField(call, field))
  }

  function CallsRefs(src: Source, id: string, calls: seq<RowCall>): seq<ContentRef> {
    if calls == [] then []
    else CallsRefs(src, id, calls[..|calls| - 1]) + CallRefs(src, id, calls[|calls| - 1], |CALL_FIELDS|)
  }

  function InlineCall(call: RowCall): RowCall {
    call.(arguments := Inline(call.arguments), subject := Inline(call.subject),
    summary := Inline(call.summary), diff := Inline(call.diff))
  }

  function InlineRow(row: Row): Row {
    row.(content := Inline(row.content), reasoning := Inline(row.reasoning),
    submitText := Inline(row.submitText), detail := Inline(row.detail), code := Inline(row.code),
    summary := Inline(row.summary), archive := Inline(row.archive),
    toolResultError := Inline(row.toolResultError),
    toolCalls := seq(|row.toolCalls|, k requires 0 <= k < |row.toolCalls| => InlineCall(row.toolCalls[k])))
  }

  /** newHistoryEntry. */
  function NewEntry(src: Source, id: string, index: nat, row: Row): Entry
    requires index < |src.turns|
  {
    Entry(id, src.turns[index], index, InlineRow(row),
          RowRefs(src, id, row, |ROW_FIELDS|) + CallsRefs(src, id, row.toolCalls))
  }

  // ---------------------------------------------------------------------------------
  // Which rows become entries
  // ---------------------------------------------------------------------------------

  predicate CallSplits(call: RowCall) {
    forall n :: 0 <= n < |CALL_FIELDS| ==> Splits(CallField(call, CALL_FIELDS[n]))
  }

  /** Every field of the row can be split into chunks. */
  predicate RowSplits(row: Row) {
    && (forall n :: 0 <= n < |ROW_FIELDS| ==> Splits(RowField(row, ROW_FIELDS[n])))
    && (forall k :: 0 <= k < |row.toolCalls| ==> CallSplits(row.toolCalls[k]))
  }

  predicate RowsSplit(rows: seq<Row>) {
    forall k :: 0 <= k < |rows| ==> RowSplits(rows[k])
  }

  /** Turning the row into an entry returns: the chunk count of every oversized field does. */
  ghost predicate EntryReturns(row: Row) {
    && (forall n :: 0 <= n < |ROW_FIELDS| ==> CountReturns(RowField(row, ROW_FIELDS[n])))
    && (forall k, n :: 0 <= k < |row.toolCalls| && 0 <= n < |CALL_FIELDS| ==>
          CountReturns(CallField(row.toolCalls[k], CALL_FIELDS[n])))
  }

  ghost predicate CountReturns(value: string) {
    |value| > INLINE_THRESHOLD ==> LoopStops(value)
  }

  lemma {:induction false} CountReturnsIff(value: string)
    ensures CountReturns(value) <==> Splits(value)
  {
    hide LoopStops;
    if |value| > INLINE_THRESHOLD {
      hide Splits;
      ChunkLoopStopsIff(value);
    }
  }

  /** newHistoryEntry returns exactly on the rows whose fields all split. */
  lemma {:induction false} EntryReturnsIff(row: Row)
    ensures EntryReturns(row) <==> RowSplits(row)
  {
    hide CountReturns, Splits, RowField, CallField;
    forall n | 0 <= n < |ROW_FIELDS|
      ensures CountReturns(RowField(row, ROW_FIELDS[n])) <==> Splits(RowField(row, ROW_FIELDS[n]))
    {
      CountReturnsIff(RowField(row, ROW_FIELDS[n]));
    }
    forall k, n | 0 <= k < |row.toolCalls| && 0 <= n < |CALL_FIELDS|
      ensures CountReturns(CallField(row.toolCalls[k], CALL_FIELDS[n])) <==>
              Splits(CallField(row.toolCalls[k], CALL_FIELDS[n]))
    {
      CountReturnsIff(CallField(row.toolCalls[k], CALL_FIELDS[n]));
    }
    if EntryReturns(row) {
      forall k | 0 <= k < |row.toolCalls| ensures CallSplits(row.toolCalls[k]) {
      }
    }
    if RowSplits(row) {
      forall k, n | 0 <= k < |row.toolCalls| && 0 <= n < |CALL_FIELDS|
        ensures CountReturns(CallField(row.toolCalls[k], CALL_FIELDS[n]))
      {
        assert CallSplits(row.toolCalls[k]);
      }
    }
  }

  /** Every field of the row is well-formed UTF-8. */
  ghost predicate ValidRow(row: Row) {
    forall field, id, value :: IsField(row, field, id, value) ==> Utf8.Valid(value)
  }

  /** Rows of well-formed UTF-8 always become entries. */
  lemma {:induction false} ValidRowSplits(row: Row)
    requires ValidRow(row)
    ensures RowSplits(row)
  {
    hide Splits, Utf8.Valid, RowField, CallField;
    forall n | 0 <= n < |ROW_FIELDS| ensures Splits(RowField(row, ROW_FIELDS[n])) {
      assert IsField(row, ROW_FIELDS[n], "", RowField(row, ROW_FIELDS[n]));
      ValidSplits(RowField(row, ROW_FIELDS[n]));
    }
    forall k | 0 <= k < |row.toolCalls| ensures CallSplits(row.toolCalls[k]) {
      forall n | 0 <= n < |CALL_FIELDS| ensures Splits(CallField(row.toolCalls[k], CALL_FIELDS[n])) {
        assert IsField(row, CALL_FIELDS[n], row.toolCalls[k].id, CallField(row.toolCalls[k], CALL_FIELDS[n]));
        ValidSplits(CallField(row.toolCalls[k], CALL_FIELDS[n]));
      }
    }
  }

  /** truncateHistoryField. */
  method TruncateHistoryField(src: Source, id: string, field: Field, toolCallID: string, value: string)
    returns (inline: string, refs: seq<ContentRef>)
    requires Splits(value)
    ensures inline == Inline(value) && refs == RefOf(src, id, field, toolCallID, value)
  {
    hide Splits;
    if |value| <= INLINE_THRESHOLD {
      return value, [];
    }
    var chunks := HistoryContentChunkCount(value);
    refs := [ContentRef(id, field, |value|, chunks, toolCallID, src.revision, src.revKnown, src.digest)];
    inline := ClipStringBytes(value, PREVIEW_BYTES);
  }

  method TruncateCall(src: Source, id: string, call: RowCall) returns (inline: RowCall, refs: seq<ContentRef>)
    requires CallSplits(call)
    ensures inline == InlineCall(call) && refs == CallRefs(src, id, call, |CALL_FIELDS|)
  {
    hide Splits, Inline, RefOf;
    assert forall n :: 0 <= n < |CALL_FIELDS| ==> Splits(CallField(call, CALL_FIELDS[n]));
    assert CALL_FIELDS[0] == ToolArguments && CALL_FIELDS[1] == ToolSubject;
    assert CALL_FIELDS[2] == ToolSummary && CALL_FIELDS[3] == ToolDiff;
    var arguments, a := TruncateHistoryField(src, id, ToolArguments, call.id, call.arguments);
    var subject, b := TruncateHistoryField(src, id, ToolSubject, call.id, call.subject);
    var summary, c := TruncateHistoryField(src, id, ToolSummary, call.id, call.summary);
    var diff, d := TruncateHistoryField(src, id, ToolDiff, call.id, call.diff);
    inline := call.(arguments := arguments, subject := subject, summary := summary, diff := diff);
    refs := a + b + c + d;
    assert CallRefs(src, id, call, 0) == [] && CallRefs(src, id, call, 1) == [] + a == a;
    assert CallRefs(src, id, call, 2) == a + b;
    assert CallRefs(src, id, call, 3) == a + b + c;
  }

  /** The refs and previews of a row's own fields, one field after the other. */
  method TruncateRow(src: Source, id: string, row: Row) returns (inline: Row, refs: seq<ContentRef>)
    requires RowSplits(row)
    ensures inline == InlineRow(row).(toolCalls := row.toolCalls) && refs == RowRefs(src, id, row, |ROW_FIELDS|)
  {
    hide Splits, Inline, RefOf, RowRefs, RowSplits, RowField;
    FieldsSplit(row);
    var content, r0 := TruncateHistoryField(src, id, Content, "", row.content);
    var reasoning, r1 := TruncateHistoryField(src, id, Reasoning, "", row.reasoning);
    var submitText, r2 := TruncateHistoryField(src, id, Submit, "", row.submitText);
    var detail, r3 := TruncateHistoryField(src, id, Detail, "", row.detail);
    var code, r4 := TruncateHistoryField(src, id, Code, "", row.code);
    var summary, r5 := TruncateHistoryField(src, id, Summary, "", row.summary);
    var archive, r6 := TruncateHistoryField(src, id, Archive, "", row.archive);
    var error, r7 := TruncateHistoryField(src, id, ResultError, "", row.toolResultError);
    inline := row.(content := content, reasoning := reasoning, submitText := submitText, detail := detail,
      code := code, summary := summary, archive := archive, toolResultError := error);
    refs := r0 + r1 + r2 + r3 + r4 + r5 + r6 + r7;
    RowRefsJoined(src, id, row);
  }

  lemma {:induction false} FieldsSplit(row: Row)
    requires RowSplits(row)
    ensures Splits(row.content) && Splits(row.reasoning) && Splits(row.submitText) && Splits(row.detail)
    ensures Splits(row.code) && Splits(row.summary) && Splits(row.archive) && Splits(row.toolResultError)
  {
    hide Splits;
    assert ROW_FIELDS[0] == Content && ROW_FIELDS[1] == Reasoning && ROW_FIELDS[2] == Submit;
    assert ROW_FIELDS[3] == Detail && ROW_FIELDS[4] == Code && ROW_FIELDS[5] == Summary;
    assert ROW_FIELDS[6] == Archive && ROW_FIELDS[7] == ResultError;
    assert forall n :: 0 <= n < |ROW_FIELDS| ==> Splits(RowField(row, ROW_FIELDS[n]));
  }

  lemma {:induction false} RowRefsStep(src: Source, id: string, row: Row, n: nat)
    requires n < |ROW_FIELDS|
    ensures RowRefs(src, id, row, 0) == []
    ensures RowRefs(src, id, row, n + 1) ==
            RowRefs(src, id, row, n) + RefOf(src, id, ROW_FIELDS[n], "", RowField(row, ROW_FIELDS[n]))
  {
  }

  lemma {:induction false} RowRefsJoined(src: Source, id: string, row: Row)
    ensures RowRefs(src, id, row, |ROW_FIELDS|) ==
            RefOf(src, id, Content, "", row.content) + RefOf(src, id, Reasoning, "", row.reasoning) +
            RefOf(src, id, Submit, "", row.submitText) + RefOf(src, id, Detail, "", row.detail) +
            RefOf(src, id, Code, "", row.code) + RefOf(src, id, Summary, "", row.summary) +
            RefOf(src, id, Archive, "", row.archive) + RefOf(src, id, ResultError, "", row.toolResultError)
  {
    hide RowRefs, RefOf;
    RowRefsStep(src, id, row, 0);
    RowRefsStep(src, id, row, 1);
    RowRefsStep(src, id, row, 2);
    RowRefsStep(src, id, row, 3);
    RowRefsStep(src, id, row, 4);
    RowRefsStep(src, id, row, 5);
    RowRefsStep(src, id, row, 6);
    RowRefsStep(src, id, row, 7);
    var first := RefOf(src, id, Content, "", row.content);
    assert [] + first == first;
  }

  /** newHistoryEntry, on the rows on which it returns. */
  method NewHistoryEntry(src: Source, id: string, index: nat, row: Row) returns (e: Entry)
    requires index < |src.turns| && RowSplits(row)
    ensures e == NewEntry(src, id, index, row)
  {
    hide Splits, Inline, RefOf, RowRefs, CallRefs, InlineCall;
    var message, refs := TruncateRow(src, id, row);
    var calls: seq<RowCall> := [];
    ghost var own := refs;
    for k := 0 to |row.toolCalls|
      invariant |calls| == k && forall j :: 0 <= j < k ==> calls[j] == InlineCall(row.toolCalls[j])
      invariant refs == own + CallsRefs(src, id, row.toolCalls[..k])
    {
      assert CallSplits(row.toolCalls[k]);
      var call, more := TruncateCall(src, id, row.toolCalls[k]);
      assert row.toolCalls[..k + 1][..k] == row.toolCalls[..k];
      calls, refs := calls + [call], refs + more;
    }
    assert row.toolCalls[..|row.toolCalls|] == row.toolCalls;
    message := message.(toolCalls := calls);
    assert message == InlineRow(row);
    e := Entry(id, src.turns[index], index, message, refs);
  }

  /** The entries of one message and what they cost. */
  method NewHistoryEntries(src: Source, index: nat, rows: seq<Row>) returns (entries: seq<Entry>, bytes: nat)
    requires index < |src.turns| && RowsSplit(rows)
    ensures entries == EntriesOf(src, index, rows) && bytes == BytesOf(entries)
  {
    hide NewEntry, InlineBytes, RowSplits, EntryIds.Format;
    entries, bytes := [], 0;
    for k := 0 to |rows|
      invariant entries == EntriesOf(src, index, rows)[..k] && bytes == BytesOf(entries)
    {
      assert RowSplits(rows[k]);
      var entry := NewHistoryEntry(src, EntryIds.Format(src.sessionID, src.epoch, 'm', index, k), index, rows[k]);
      assert (entries + [entry])[..k] == entries;
      entries, bytes := entries + [entry], bytes + InlineBytes(entry);
    }
  }

  function CallBytes(calls: seq<RowCall>): nat {
    if calls == [] then 0
    else
      var c := calls[|calls| - 1];
      CallBytes(calls[..|calls| - 1]) + |c.arguments| + |c.subject| + |c.summary| + |c.diff| + |c.id| + |c.name|
  }

  /** inlineBytes. */
  function InlineBytes(e: Entry): nat {
    var m := e.message;
    |m.content| + |m.detail| + |m.code| + |m.submitText| + |m.reasoning| + |m.summary| + |m.archive| +
    |m.toolResultError| + |m.toolCallID| + |m.toolName| + |m.role| + CallBytes(m.toolCalls)
  }

  /** Entries of one message's rows. */
  function EntriesOf(src: Source, index: nat, rows: seq<Row>): seq<Entry>
    requires index < |src.turns|
  {
    seq(|rows|, k requires 0 <= k < |rows| =>
      NewEntry(src, EntryIds.Format(src.sessionID, src.epoch, 'm', index, k), index, rows[k]))
  }

  function BytesOf(entries: seq<Entry>): nat {
    if entries == [] then 0 else BytesOf(entries[..|entries| - 1]) + InlineBytes(entries[|entries| - 1])
  }

  /** A field of a row, for call fields the one of call `k`. */
  predicate IsField(row: Row, field: Field, toolCallID: string, value: string) {
    || (field in ROW_FIELDS && toolCallID == "" && RowField(row, field) == value)
    || (field in CALL_FIELDS && exists k ::
          0 <= k < |row.toolCalls| && row.toolCalls[k].id == toolCallID && CallField(row.toolCalls[k], field) == value)
  }

  /** Every content ref of an entry stands for one oversized field of the full row, with the
      size and chunk count of that field. */
  ghost predicate RefOfField(src: Source, id: string, row: Row, ref: ContentRef) {
    exists value :: IsField(row, ref.field, ref.toolCallID, value) &&
                    ref == ContentRef(id, ref.field, |value|, ChunkCount(value), ref.toolCallID, src.revision,
                      src.revKnown, src.digest) &&
                    |value| > INLINE_THRESHOLD
  }

  lemma {:induction false} RowRefsAreFields(src: Source, id: string, row: Row, n: nat, ref: ContentRef)
    requires n <= |ROW_FIELDS| && ref in RowRefs(src, id, row, n)
    ensures RefOfField(src, id, row, ref)
  {
    if ref in RowRefs(src, id, row, n - 1) {
      RowRefsAreFields(src, id, row, n - 1, ref);
    } else {
      assert IsField(row, ref.field, ref.toolCallID, RowField(row, ROW_FIELDS[n - 1]));
    }
  }

  lemma {:induction false} CallRefsAreFields(src: Source, id: string, row: Row, k: nat, n: nat, ref: ContentRef)
    requires k < |row.toolCalls| && n <= |CALL_FIELDS| && ref in CallRefs(src, id, row.toolCalls[k], n)
    ensures RefOfField(src, id, row, ref)
  {
    if ref in CallRefs(src, id, row.toolCalls[k], n - 1) {
      CallRefsAreFields(src, id, row, k, n - 1, ref);
    } else {
      assert IsField(row, ref.field, ref.toolCallID, CallField(row.toolCalls[k], CALL_FIELDS[n - 1]));
    }
  }

  lemma {:induction false} CallsRefsAreFields(src: Source, id: string, row: Row, n: nat, ref: ContentRef)
    requires n <= |row.toolCalls| && ref in CallsRefs(src, id, row.toolCalls[..n])
    ensures RefOfField(src, id, row, ref)
  {
    assert row.toolCalls[..n][..n - 1] == row.toolCalls[..n - 1];
    if ref in CallsRefs(src, id, row.toolCalls[..n - 1]) {
      CallsRefsAreFields(src, id, row, n - 1, ref);
    } else {
      CallRefsAreFields(src, id, row, n - 1, |CALL_FIELDS|, ref);
    }
  }

  lemma {:induction false} RefsAreFields(src: Source, id: string, index: nat, row: Row, ref: ContentRef)
    requires index < |src.turns| && ref in NewEntry(src, id, index, row).refs
    ensures RefOfField(src, id, row, ref)
  {
    if ref in RowRefs(src, id, row, |ROW_FIELDS|) {
      RowRefsAreFields(src, id, row, |ROW_FIELDS|, ref);
    } else {
      assert row.toolCalls[..|row.toolCalls|] == row.toolCalls;
      CallsRefsAreFields(src, id, row, |row.toolCalls|, ref);
    }
  }

  /** Refs depend on nothing of the source but its version. */
  predicate SameVersion(a: Source, b: Source) {
    a.revision == b.revision && a.revKnown == b.revKnown && a.digest == b.digest
  }

  lemma {:induction false} SameRowRefs(a: Source, b: Source, id: string, row: Row, n: nat)
    requires SameVersion(a, b) && n <= |ROW_FIELDS|
    ensures RowRefs(a, id, row, n) == RowRefs(b, id, row, n)
  {
    if n > 0 {
      SameRowRefs(a, b, id, row, n - 1);
    }
  }

  lemma {:induction false} SameCallRefs(a: Source, b: Source, id: string, call: RowCall, n: nat)
    requires SameVersion(a, b) && n <= |CALL_FIELDS|
    ensures CallRefs(a, id, call, n) == CallRefs(b, id, call, n)
  {
    if n > 0 {
      SameCallRefs(a, b, id, call, n - 1);
    }
  }

  lemma {:induction false} SameCallsRefs(a: Source, b: Source, id: string, calls: seq<RowCall>)
    requires SameVersion(a, b)
    ensures CallsRefs(a, id, calls) == CallsRefs(b, id, calls)
  {
    hide CallRefs;
    if calls != [] {
      SameCallsRefs(a, b, id, calls[..|calls| - 1]);
      SameCallRefs(a, b, id, calls[|calls| - 1], |CALL_FIELDS|);
    }
  }
}
