/** Filtered cursor pagination over an ordered catalog: content search and session listing. */
module CatalogPages {
  import opened Prelude

  /** A catalog record; `key` is its position in the catalog's total order (rank, path and
      indexes for search, activity and path for sessions), which is what cursors carry. */
  datatype Record = Record(key: int, body: string)

  ghost predicate Ordered(recs: seq<Record>) {
    forall i, j :: 0 <= i < j < |recs| ==> recs[i].key < recs[j].key
  }

  /** Position of the first record behind a cursor. */
  function Behind(recs: seq<Record>, after: Option<int>): (p: nat)
    ensures p <= |recs|
  {
    match after
    case None => 0
    case Some(key) => if recs == [] || recs[0].key > key then 0 else 1 + Behind(recs[1..], after)
  }

  lemma {:induction false} BehindRecord(recs: seq<Record>, i: nat)
    requires Ordered(recs) && i < |recs|
    ensures Behind(recs, Some(recs[i].key)) == i + 1
  {
    if i == 0 {
      if |recs| > 1 {
        assert recs[1..][0] == recs[1];
      }
    } else {
      assert recs[0].key < recs[i].key;
      BehindRecord(recs[1..], i - 1);
    }
  }

  function Filter(recs: seq<Record>, accept: Record -> bool): seq<Record> {
    if recs == [] then []
    else Filter(recs[..|recs| - 1], accept) + if accept(recs[|recs| - 1]) then [recs[|recs| - 1]] else []
  }

  lemma {:induction false} FilterConcat(a: seq<Record>, b: seq<Record>, accept: Record -> bool)
    ensures Filter(a + b, accept) == Filter(a, accept) + Filter(b, accept)
  {
    if b == [] {
      assert a + b == a;
    } else {
      assert (a + b)[..|a + b| - 1] == a + b[..|b| - 1];
      FilterConcat(a, b[..|b| - 1], accept);
    }
  }

  lemma {:induction false} FilterSplit(recs: seq<Record>, from: nat, to: nat, accept: Record -> bool)
    requires from <= to <= |recs|
    ensures Filter(recs[from..], accept) == Filter(recs[from..to], accept) + Filter(recs[to..], accept)
  {
    assert recs[from..] == recs[from..to] + recs[to..];
    FilterConcat(recs[from..to], recs[to..], accept);
  }

  lemma {:induction false} FilterStep(recs: seq<Record>, from: nat, to: nat, accept: Record -> bool)
    requires from <= to < |recs|
    ensures Filter(recs[from..to + 1], accept) == Filter(recs[from..to], accept) + if accept(recs[to]) then [recs[to]]
              else []
  {
    assert recs[from..to + 1][..to - from] == recs[from..to];
  }

  /** A page of the filtered list read behind `after`: its first `limit` records, and a cursor
      behind which exactly the remaining ones are. */
  ghost predicate IsPage(recs: seq<Record>, accept: Record -> bool, after: Option<int>, limit: nat, items: seq<Record>,
                         next: Option<int>) {
    var rest := Filter(recs[Behind(recs, after)..], accept);
    && items == rest[..Min(limit, |rest|)]
    && (next.None? ==> |rest| <= limit)
    && (next.Some? ==>
          Behind(recs, after) < Behind(recs, next) && Filter(recs[Behind(recs, next)..], accept) == rest[|items|..])
  }

  /** The scan has accepted `items` from [start, pos); `cut` is the record of the last item a
      page of `limit` keeps. */
  ghost predicate Scan(recs: seq<Record>, accept: Record -> bool, start: nat, pos: nat, limit: nat, items: seq<Record>,
                       cut: nat) {
    && start <= pos <= |recs| && items == Filter(recs[start..pos], accept)
    && (|items| >= limit ==> start <= cut < pos && Filter(recs[start..cut + 1], accept) == items[..limit])
  }

  lemma {:induction false} ScanStarts(recs: seq<Record>, accept: Record -> bool, start: nat, limit: nat)
    requires start <= |recs| && limit > 0
    ensures Scan(recs, accept, start, start, limit, [], 0)
  {
    assert recs[start..start] == [];
  }

  lemma {:induction false} ScanStep(recs: seq<Record>, accept: Record -> bool, start: nat, pos: nat, limit: nat,
                                    items: seq<Record>, cut: nat)
    requires Scan(recs, accept, start, pos, limit, items, cut) && pos < |recs| && limit > 0
    ensures var more := items + if accept(recs[pos]) then [recs[pos]] else [];
            Scan(recs, accept, start, pos + 1, limit, more, if accept(recs[pos]) && |more| == limit then pos else cut)
  {
    hide Filter;
    FilterStep(recs, start, pos, accept);
    if accept(recs[pos]) && |items| + 1 == limit {
      assert (items + [recs[pos]])[..limit] == items + [recs[pos]];
    } else if |items| >= limit {
      assert (items + [recs[pos]])[..limit] == items[..limit];
    }
    assert items + [] == items;
  }

  /** More than a page was accepted: the page and the cursor of its last record. */
  lemma {:induction false} ScanFull(recs: seq<Record>, accept: Record -> bool, after: Option<int>, pos: nat, limit: nat,
                                    items: seq<Record>, cut: nat)
    requires && Ordered(recs) && limit > 0 && Scan(recs, accept, Behind(recs, after), pos, limit, items, cut)
             && |items| >= limit
    ensures IsPage(recs, accept, after, limit, items[..limit], Some(recs[cut].key))
    ensures |Filter(recs[Behind(recs, after)..], accept)| >= |items|
  {
    hide Filter, Behind, Ordered;
    var start := Behind(recs, after);
    FilterSplit(recs, start, pos, accept);
    BehindRecord(recs, cut);
    FilterSplit(recs, start, cut + 1, accept);
  }

  /** The catalog is exhausted within the page. */
  lemma {:induction false} ScanEnds(recs: seq<Record>, accept: Record -> bool, after: Option<int>, limit: nat,
                                    items: seq<Record>, cut: nat)
    requires Scan(recs, accept, Behind(recs, after), |recs|, limit, items, cut) && |items| <= limit
    ensures IsPage(recs, accept, after, limit, items, None)
    ensures Filter(recs[Behind(recs, after)..], accept) == items
  {
    hide Filter, Behind;
    assert recs[Behind(recs, after)..|recs|] == recs[Behind(recs, after)..];
    assert items[..|items|] == items;
  }

  const BATCH := 200

  /** How the catalog answers a call: with records, with an error, or that the cursor is stale. */
  datatype Answer = Fine | Fails | Outdated

  /** The answer to each successive call. */
  type Catalog = nat -> Answer

  /** Of `calls` calls only the last may have gone wrong, and that is `answer`. */
  ghost predicate FirstFault(catalog: Catalog, calls: nat, answer: Answer) {
    && (forall k :: 0 <= k < calls - 1 ==> catalog(k).Fine?)
    && (if calls == 0 then answer.Fine? else answer == catalog(calls - 1))
  }

  lemma {:induction false} NoCalls(catalog: Catalog)
    ensures FirstFault(catalog, 0, Fine)
  {
  }

  lemma {:induction false} NextCall(catalog: Catalog, calls: nat)
    requires FirstFault(catalog, calls, Fine)
    ensures FirstFault(catalog, calls + 1, catalog(calls))
  {
  }

  /** The page size of a request: 50 by default, at most 200. */
  function PageLimit(requested: int): (limit: nat)
    ensures 0 < limit <= 200 && (0 < requested <= 200 ==> limit == requested)
    ensures (requested <= 0 ==> limit == 50) && (requested > 200 ==> limit == 200)
  {
    if requested <= 0 then 50 else if requested > 200 then 200 else requested
  }

  /** catalog.Search and catalog.ListSessions: the next records behind a position. */
  function Batch(recs: seq<Record>, from: nat, limit: nat): (batch: seq<Record>)
    requires from <= |recs|
    ensures |batch| == Min(limit, |recs| - from) && forall k :: 0 <= k < |batch| ==> batch[k] == recs[from + k]
  {
    recs[from..Min(from + limit, |recs|)]
  }

  /** Filter one batch until one item more than the page needs has been accepted. */
  method TakeBatch(recs: seq<Record>, accept: Record -> bool, batch: seq<Record>, limit: nat, items0: seq<Record>,
                   key0: int,
                   ghost start: nat, pos: nat, ghost cut0: nat)
    returns (items: seq<Record>, key: int, ghost cut: nat, taken: nat)
    requires limit > 0 && |items0| <= limit && pos + |batch| <= |recs| && forall k :: 0 <= k < |batch| ==>
               batch[k] == recs[pos + k]
    requires Scan(recs, accept, start, pos, limit, items0, cut0) && (|items0| >= limit ==> key0 == recs[cut0].key)
    ensures taken <= |batch| && |items| <= limit + 1 && (|items| <= limit ==> taken == |batch|)
    ensures |batch| > 0 ==> taken > 0
    ensures Scan(recs, accept, start, pos + taken, limit, items, cut) && (|items| >= limit ==> key == recs[cut].key)
  {
    hide Filter;
    items, key, cut, taken := items0, key0, cut0, 0;
    while taken < |batch| && |items| < limit + 1
      invariant taken <= |batch| && |items| <= limit + 1 && (taken == 0 ==> items == items0)
      invariant Scan(recs, accept, start, pos + taken, limit, items, cut) && (|items| >= limit ==> key == recs[cut].key)
    {
      var candidate := batch[taken];
      ScanStep(recs, accept, start, pos + taken, limit, items, cut);
      if accept(candidate) {
        items := items + [candidate];
        if |items| == limit {
          key, cut := candidate.key, pos + taken;
        }
      } else {
        assert items + [] == items;
      }
      taken := taken + 1;
    }
  }

  /** collectHistorySearchItems: pull batches until one item more than the page needs has been
      accepted or the catalog is exhausted. */
  method CollectHistorySearchItems(recs: seq<Record>, accept: Record -> bool, after: Option<int>, limit: nat,
                                   catalog: Catalog)
    returns (items: seq<Record>, next: Option<int>, answer: Answer, ghost calls: nat)
    requires Ordered(recs) && limit > 0
    ensures FirstFault(catalog, calls, answer)
    ensures answer.Fine? ==> IsPage(recs, accept, after, limit, items, next)
    ensures answer.Fine? ==> (next.Some? <==> |Filter(recs[Behind(recs, after)..], accept)| > limit)
    ensures !answer.Fine? ==> next.None? && items <= Filter(recs[Behind(recs, after)..], accept)
  {
    hide Filter, IsPage, Scan, Behind, Ordered, FirstFault;
    items, next, answer, calls := [], None, Fine, 0;
    NoCalls(catalog);
    var call := 0;
    ghost var start := Behind(recs, after);
    var pos := Behind(recs, after);
    var key, exhausted := 0, false;
    ghost var cut: nat := 0;
    ScanStarts(recs, accept, start, limit);
    while |items| < limit + 1 && !exhausted
      invariant start <= pos <= |recs| && |items| <= limit + 1 && (exhausted && |items| <= limit ==> pos == |recs|)
      invariant Scan(recs, accept, start, pos, limit, items, cut) && (|items| >= limit ==> CutKey(recs, cut, key))
      invariant answer.Fine? && call == calls && FirstFault(catalog, calls, Fine)
      decreases |recs| - pos, if exhausted then 0 else 1
    {
      NextCall(catalog, calls);
      answer := catalog(call);
      call, calls := call + 1, calls + 1;
      if !answer.Fine? {
        ScanPrefix(recs, accept, start, pos, limit, items, cut);
        return;
      }
      var batch := Batch(recs, pos, BATCH);
      if |batch| == 0 {
        exhausted := true;
        continue;
      }
      CutInRange(recs, accept, start, pos, limit, items, cut);
      var taken;
      items, key, cut, taken := TakeBatch(recs, accept, batch, limit, items, key, start, pos, cut);
      pos := pos + taken;
      CutInRange(recs, accept, start, pos, limit, items, cut);
      if |items| < limit + 1 && |batch| < BATCH {
        exhausted := true;
      }
    }
    CutInRange(recs, accept, start, pos, limit, items, cut);
    if |items| > limit {
      ScanFull(recs, accept, after, pos, limit, items, cut);
      items, next := items[..limit], Some(key);
    } else {
      ScanEnds(recs, accept, after, limit, items, cut);
    }
  }

  lemma {:induction false} ScanPrefix(recs: seq<Record>, accept: Record -> bool, start: nat, pos: nat, limit: nat,
                                      items: seq<Record>, cut: nat)
    requires Scan(recs, accept, start, pos, limit, items, cut)
    ensures items <= Filter(recs[start..], accept)
  {
    hide Filter;
    FilterSplit(recs, start, pos, accept);
  }

  predicate CutKey(recs: seq<Record>, cut: nat, key: int) {
    cut < |recs| && recs[cut].key == key
  }

  lemma {:induction false} CutInRange(recs: seq<Record>, accept: Record -> bool, start: nat, pos: nat, limit: nat,
                                      items: seq<Record>, cut: nat)
    requires Scan(recs, accept, start, pos, limit, items, cut)
    ensures pos <= |recs| && (|items| >= limit ==> cut < |recs|)
  {
  }

  /** ListHistorySessions: walk catalog pages of `limit` records, post-filtering by runtime
      state when asked to. */
  method ListHistorySessions(recs: seq<Record>, accept: Record -> bool, filtering: bool, after: Option<int>,
                             requested: int, catalog: Catalog)
    returns (items: seq<Record>, next: Option<int>, answer: Answer, ghost calls: nat)
    requires Ordered(recs)
    requires !filtering ==> forall r :: accept(r)
    ensures FirstFault(catalog, calls, answer) && calls > 0
    ensures answer.Fine? ==> IsPage(recs, accept, after, PageLimit(requested), items, next)
    ensures answer.Fine? && next.Some? ==> |items| == PageLimit(requested)
    ensures !answer.Fine? ==> next.None? && items <= Filter(recs[Behind(recs, after)..], accept)
  {
    hide Filter, IsPage, Scan, Behind, Ordered, FirstFault;
    items, next, answer, calls := [], None, Fine, 0;
    NoCalls(catalog);
    var limit, call := PageLimit(requested), 0;
    ghost var start := Behind(recs, after);
    var pos := Behind(recs, after);
    ScanStarts(recs, accept, start, limit);
    while true
      invariant start <= pos <= |recs| && |items| < limit && Scan(recs, accept, start, pos, limit, items, 0)
      invariant !filtering ==> pos == start && items == []
      invariant answer.Fine? && next.None? && call == calls && FirstFault(catalog, calls, Fine)
      decreases |recs| - pos
    {
      NextCall(catalog, calls);
      answer := catalog(call);
      call, calls := call + 1, calls + 1;
      if !answer.Fine? {
        ScanPrefix(recs, accept, start, pos, limit, items, 0);
        return;
      }
      var page := Batch(recs, pos, limit);
      var more := pos + |page| < |recs|;
      for i := 0 to |page|
        invariant |items| < limit && Scan(recs, accept, start, pos + i, limit, items, 0)
        invariant !filtering ==> |items| == i
      {
        ScanStep(recs, accept, start, pos + i, limit, items, 0);
        if accept(page[i]) {
          items := items + [page[i]];
          if |items| == limit {
            if i + 1 < |page| || more {
              ScanFull(recs, accept, after, pos + i + 1, limit, items, pos + i);
              assert items[..limit] == items;
              next := Some(page[i].key);
            } else {
              ScanEnds(recs, accept, after, limit, items, pos + i);
            }
            return;
          }
        } else {
          assert items + [] == items;
        }
      }
      pos := pos + |page|;
      if !filtering || !more {
        // Without a post-filter a page that is not full ends the catalog.
        ScanEnds(recs, accept, after, limit, items, 0);
        return;
      }
    }
  }

  function CursorBefore(cursors: seq<Option<int>>, j: nat): Option<int>
    requires j <= |cursors|
  {
    if j == 0 then None else cursors[j - 1]
  }

  ghost predicate PageAt(recs: seq<Record>, accept: Record -> bool, limits: seq<nat>, pages: seq<seq<Record>>,
                         cursors: seq<Option<int>>, j: nat)
    requires j < |limits| == |pages| == |cursors|
  {
    limits[j] > 0 && (j > 0 ==> cursors[j - 1].Some?) &&
      IsPage(recs, accept, CursorBefore(cursors, j), limits[j], pages[j], cursors[j])
  }

  /** Pages read by following cursors from the start, each with its own limit. */
  ghost predicate Follows(recs: seq<Record>, accept: Record -> bool, limits: seq<nat>, pages: seq<seq<Record>>,
                          cursors: seq<Option<int>>) {
    |limits| == |pages| == |cursors| > 0 && forall j :: 0 <= j < |pages| ==>
      PageAt(recs, accept, limits, pages, cursors, j)
  }

  lemma {:induction false} PagesJoinFrom(recs: seq<Record>, accept: Record -> bool, limits: seq<nat>,
                                         pages: seq<seq<Record>>, cursors: seq<Option<int>>, j: nat)
    requires Follows(recs, accept, limits, pages, cursors) && j < |pages| && cursors[|pages| - 1].None?
    ensures Flatten(pages[j..]) == Filter(recs[Behind(recs, CursorBefore(cursors, j))..], accept)
    decreases |pages| - j
  {
    hide Filter, Behind;
    var rest := Filter(recs[Behind(recs, CursorBefore(cursors, j))..], accept);
    assert PageAt(recs, accept, limits, pages, cursors, j);
    assert pages[j..][0] == pages[j] && pages[j..][1..] == pages[j + 1..];
    assert rest == rest[..|pages[j]|] + rest[|pages[j]|..];
    if j + 1 < |pages| {
      PagesJoinFrom(recs, accept, limits, pages, cursors, j + 1);
      assert PageAt(recs, accept, limits, pages, cursors, j + 1);
    } else {
      assert pages[j + 1..] == [];
    }
  }

  /** Following cursors to the end yields the filtered catalog, each record once and in order,
      whatever the page limits. */
  lemma {:induction false} PagesJoin(recs: seq<Record>, accept: Record -> bool, limits: seq<nat>,
                                     pages: seq<seq<Record>>, cursors: seq<Option<int>>)
    requires Follows(recs, accept, limits, pages, cursors) && cursors[|pages| - 1].None?
    ensures Flatten(pages) == Filter(recs, accept)
  {
    hide Filter;
    PagesJoinFrom(recs, accept, limits, pages, cursors, 0);
    assert pages[0..] == pages && recs[0..] == recs;
  }

  /** Cursors move strictly forward, so following them ends. */
  lemma {:induction false} CursorsAdvance(recs: seq<Record>, accept: Record -> bool, limits: seq<nat>,
                                          pages: seq<seq<Record>>, cursors: seq<Option<int>>, j: nat)
    requires Follows(recs, accept, limits, pages, cursors) && 0 < j < |pages| && cursors[j].Some?
    ensures Behind(recs, cursors[j - 1]) < Behind(recs, cursors[j]) <= |recs|
  {
    assert PageAt(recs, accept, limits, pages, cursors, j);
  }
}

/** promptHistoryTape: prompts of all sessions, read older by (session, offset) cursors. */
module PromptTape {
  import opened Prelude

  datatype Position = Position(session: int, offset: int)

  class PromptHistoryTape {
    const sessions: seq<string>
    const files: string -> Option<seq<string>>
    var loaded: map<string, seq<string>>

    constructor (paths: seq<string>, read: string -> Option<seq<string>>)
      ensures sessions == paths && files == read && Valid()
    {
      sessions, files, loaded := paths, read, map[];
    }

    /** Prompts of a session file; an unreadable one has none. */
    function Entries(path: string): seq<string> {
      match files(path)
      case None => []
      case Some(entries) => entries
    }

    ghost predicate Valid()
      reads this
    {
      forall path :: path in loaded ==> loaded[path] == Entries(path)
    }

    /** Everything from session `i` on. */
    function From(i: nat): seq<string>
      requires i <= |sessions|
      decreases |sessions| - i
    {
      if i == |sessions| then [] else Entries(sessions[i]) + From(i + 1)
    }

    /** Everything at or behind a position. */
    function Rest(p: Position): seq<string> {
      if p.session < 0 || p.session >= |sessions| then []
      else
        var entries := Entries(sessions[p.session]);
        (if 0 <= p.offset <= |entries| then entries[p.offset..] else []) + From(p.session + 1)
    }

    /** entriesForSession. */
    method EntriesForSession(i: nat) returns (entries: Option<seq<string>>)
      requires i < |sessions| && Valid()
      modifies this
      ensures Valid() && sessions[i] in loaded
      ensures entries.Some? ==> entries.value == Entries(sessions[i])
      ensures entries.None? ==> Entries(sessions[i]) == []
    {
      var path := sessions[i];
      if path in loaded {
        return Some(loaded[path]);
      }
      entries := files(path);
      loaded := loaded[path := if entries.Some? then entries.value else []];
    }

    /** A page read at a cursor: the first `limit` prompts at or behind it, and a position with
        exactly the remaining ones behind it, or none when the page ends the tape. */
    ghost predicate IsTapePage(cursor: Option<Position>, limit: nat, out: seq<string>, next: Option<Position>) {
      var rest := Rest(StartOf(cursor));
      && out == rest[..Min(limit, |rest|)]
      && (if next.Some? then |out| == limit && StartOf(next) == next.value &&
            Rest(next.value) == rest[limit..] else out == rest)
    }

    /** `pages` are read by following cursors from the newest prompt, each with its own limit. */
    ghost predicate TapeFollows(limits: seq<nat>, pages: seq<seq<string>>, cursors: seq<Option<Position>>) {
      && |limits| == |pages| == |cursors| - 1 && |pages| > 0 && cursors[0] == None
      && forall j :: 0 <= j < |pages| ==> TapePageAt(limits, pages, cursors, j)
    }

    ghost predicate TapePageAt(limits: seq<nat>, pages: seq<seq<string>>, cursors: seq<Option<Position>>, j: nat)
      requires j < |limits| == |pages| == |cursors| - 1
    {
      limits[j] > 0 && (j > 0 ==> cursors[j].Some?) && IsTapePage(cursors[j], limits[j], pages[j], cursors[j + 1])
    }

    lemma {:induction false} TapePagesJoinFrom(limits: seq<nat>, pages: seq<seq<string>>,
                                               cursors: seq<Option<Position>>, j: nat)
      requires TapeFollows(limits, pages, cursors) && j < |pages| && cursors[|pages|].None?
      ensures Flatten(pages[j..]) == Rest(StartOf(cursors[j]))
      decreases |pages| - j
    {
      hide Rest, StartOf;
      var rest := Rest(StartOf(cursors[j]));
      assert TapePageAt(limits, pages, cursors, j);
      assert pages[j..][0] == pages[j] && pages[j..][1..] == pages[j + 1..];
      if j + 1 < |pages| {
        assert TapePageAt(limits, pages, cursors, j + 1);
        TapePagesJoinFrom(limits, pages, cursors, j + 1);
        assert rest == rest[..limits[j]] + rest[limits[j]..];
      } else {
        assert pages[j + 1..] == [];
      }
    }

    /** Pages of any positive limits, followed to the end, join to the prompts of all sessions. */
    lemma {:induction false} TapePagesJoin(limits: seq<nat>, pages: seq<seq<string>>, cursors: seq<Option<Position>>)
      requires TapeFollows(limits, pages, cursors) && cursors[|pages|].None?
      ensures Flatten(pages) == From(0)
    {
      hide Rest, From;
      TapePagesJoinFrom(limits, pages, cursors, 0);
      assert pages[0..] == pages;
      SessionFrom(0);
    }

    /** readOlder: at most `limit` prompts from the cursor on, and the position behind them. */
    method ReadOlder(cursor: Option<Position>, limit: nat) returns (out: seq<string>, next: Option<Position>)
      requires Valid() && limit > 0
      modifies this
      ensures Valid()
      ensures IsTapePage(cursor, limit, out, next)
    {
      hide Rest, Entries;
      var start := StartOf(cursor);
      out := [];
      var i: nat, offset: nat := start.session, start.offset;
      ghost var rest := Rest(start);
      assert [] + rest == rest;
      while i < |sessions| && |out| < limit
        invariant |out| <= limit && out + Rest(Position(i, offset)) == rest && Valid()
        decreases |sessions| - i, limit - |out|
      {
        var read := EntriesForSession(i);
        if read.None? || offset >= |read.value| {
          StepOver(i, offset);
          i, offset := i + 1, 0;
          continue;
        }
        var entries := read.value;
        var end := Min(|entries|, offset + limit - |out|);
        Advance(i, offset, end);
        ConcatAssoc(out, entries[offset..end], Rest(Position(i, end)));
        out := out + entries[offset..end];
        offset := end;
        if offset >= |entries| && |out| < limit {
          StepOver(i, offset);
          i, offset := i + 1, 0;
        }
      }
      if i < |sessions| && sessions[i] in loaded && offset >= |loaded[sessions[i]]| {
        StepOver(i, offset);
        i, offset := i + 1, 0;
      }
      PrefixOf(out, Rest(Position(i, offset)), rest);
      if i >= |sessions| {
        NothingBehind(i, offset);
      }
      next := if i < |sessions| then Some(Position(i, offset)) else None;
    }

    lemma {:induction false} NothingBehind(i: nat, offset: nat)
      requires i >= |sessions|
      ensures Rest(Position(i, offset)) == []
    {
    }

    lemma {:induction false} StepOver(i: nat, offset: nat)
      requires i < |sessions| && offset >= |Entries(sessions[i])|
      ensures Rest(Position(i, offset)) == Rest(Position(i + 1, 0))
    {
      hide Entries;
      var skipped := if offset == |Entries(sessions[i])| then Entries(sessions[i])[offset..] else [];
      assert skipped == [] && skipped + From(i + 1) == From(i + 1);
      SessionFrom(i + 1);
    }

    lemma {:induction false} SessionFrom(i: nat)
      requires i <= |sessions|
      ensures Rest(Position(i, 0)) == From(i)
    {
      hide Entries;
      if i < |sessions| {
        assert Entries(sessions[i])[0..] == Entries(sessions[i]);
      }
    }

    lemma {:induction false} Advance(i: nat, offset: nat, end: nat)
      requires i < |sessions| && offset <= end <= |Entries(sessions[i])|
      ensures Rest(Position(i, offset)) == Entries(sessions[i])[offset..end] + Rest(Position(i, end))
    {
      hide Entries, From;
      var entries := Entries(sessions[i]);
      assert entries[offset..] == entries[offset..end] + entries[end..];
      ConcatAssoc(entries[offset..end], entries[end..], From(i + 1));
    }

    /** readAll terminates because every page before the last is full, and gives every prompt of
        every session. */
    method ReadAll() returns (out: seq<string>)
      requires Valid()
      modifies this
      ensures Valid() && out == From(0)
    {
      hide Rest, Entries, From;
      out := [];
      var cursor: Option<Position> := None;
      WholeTape();
      while true
        invariant Valid() && out + Rest(StartOf(cursor)) == From(0)
        decreases |Rest(StartOf(cursor))|
      {
        ghost var rest := Rest(StartOf(cursor));
        var page, next := ReadOlder(cursor, MAX_PAGE);
        if next.None? {
          return out + page;
        }
        assert rest == page + Rest(next.value);
        ConcatAssoc(out, page, Rest(next.value));
        out := out + page;
        cursor := next;
      }
    }

    lemma {:induction false} WholeTape()
      ensures [] + Rest(StartOf(None)) == From(0)
    {
      hide Rest, From;
      SessionFrom(0);
      assert [] + From(0) == From(0);
    }
  }

  lemma {:induction false} ConcatAssoc(a: seq<string>, b: seq<string>, c: seq<string>)
    ensures a + (b + c) == (a + b) + c
  {
  }

  lemma {:induction false} PrefixOf(a: seq<string>, b: seq<string>, whole: seq<string>)
    requires a + b == whole
    ensures |a| <= |whole| && whole[..|a|] == a && whole[|a|..] == b && (b == [] ==> whole == a)
  {
  }

  /** promptHistoryMaxPageLimit. */
  const MAX_PAGE := 200

  /** A missing or foreign cursor starts at the newest prompt; negative parts are clamped. */
  function StartOf(cursor: Option<Position>): Position {
    match cursor
    case None => Position(0, 0)
    case Some(p) => Position(Max(p.session, 0), Max(p.offset, 0))
  }
}
