/** Paging of legacy event-format sessions: rows are already converted, every row is its own
    group, and the page is cut by walking backwards. */
module EventRows {
  import opened Prelude
  import opened HistoryModel
  import opened HistorySource
  import opened Entries
  import opened Cuts
  import opened PageSpec
  import EntryIds

  /** Visible turn of each row: the number of user rows up to it. */
  function TurnAt(rows: seq<Row>, n: nat): nat
    requires n <= |rows|
  {
    if n == 0 then 0 else TurnAt(rows, n - 1) + if rows[n - 1].role == "user" then 1 else 0
  }

  function TurnsOf(rows: seq<Row>): (turns: seq<int>)
    ensures |turns| == |rows|
  {
    seq(|rows|, i requires 0 <= i < |rows| => TurnAt(rows, i + 1))
  }

  lemma {:induction false} TurnsGrow(rows: seq<Row>, i: nat, j: nat)
    requires i <= j <= |rows|
    ensures TurnAt(rows, i) <= TurnAt(rows, j)
  {
    if i < j {
      TurnsGrow(rows, i, j - 1);
    }
  }

  /** The turn search of the event pager always runs on sorted turns. */
  lemma {:induction false} TurnsAreSorted(rows: seq<Row>)
    ensures Sorted(TurnsOf(rows))
  {
    forall i, j | 0 <= i <= j < |rows| ensures TurnsOf(rows)[i] <= TurnsOf(rows)[j] {
      TurnsGrow(rows, i + 1, j + 1);
    }
  }

  /** The source as the event pager completes it. */
  function EventSource(src: Source, rows: seq<Row>): Source {
    src.(turns := TurnsOf(rows), total := |rows|, totalTurns := TurnAt(rows, |rows|))
  }

  function EventEntry(src: Source, rows: seq<Row>, i: nat): Entry
    requires i < |rows| == |src.turns|
  {
    NewEntry(src, EntryIds.Format(src.sessionID, 0, 'e', i, 0), i, rows[i])
  }

  function EventParts(src: Source, rows: seq<Row>, lo: nat, hi: nat): (parts: seq<seq<Entry>>)
    requires lo <= hi <= |rows| == |src.turns|
    ensures |parts| == hi - lo
  {
    seq(hi - lo, k requires 0 <= k < hi - lo => [EventEntry(src, rows, lo + k)])
  }

  function EventPageFrom(src: Source, entries: seq<Entry>, start: nat): Page {
    Page(entries, if start > 0 then Encoded(Cursor(1, 0, false, src.digest, start)) else NoCursor, start > 0,
         src.totalTurns, StartTurn(entries), EndTurn(entries), false, 0, false, src.digest)
  }

  function EventStart(src: Source, rows: seq<Row>, hi: nat, req: Request): (start: nat)
    requires 0 < hi <= |rows| == |src.turns| && req.turns > 0
    ensures start < hi
  {
    TurnStartBelow(src.turns, hi, req.turns);
    var lo := TurnStart(src.turns, hi, req.turns);
    CutStart(EventParts(src, rows, lo, hi), lo, req.entries, req.bytes)
  }

  function EventPage(src: Source, rows: seq<Row>, hi: nat, req: Request): Page
    requires 0 < hi <= |rows| == |src.turns| && req.turns > 0
  {
    TurnStartBelow(src.turns, hi, req.turns);
    var lo := TurnStart(src.turns, hi, req.turns);
    EventPageFrom(src, CutEntries(EventParts(src, rows, lo, hi), lo, req.entries, req.bytes),
      EventStart(src, rows, hi, req))
  }

  /** pageHistoryEventRows as a function of the completed source. */
  function EventSlice(src: Source, rows: seq<Row>, req: Request): Page
    requires src.total == |rows| == |src.turns| && req.turns > 0
  {
    var c := Bound(req.cursor);
    if c.Some? && c.value.digest != src.digest then
      Page([], NoCursor, false, 0, 0, 0, true, 0, false, src.digest)
    else if UpperBound(src, req) <= 0 then
      Page([], NoCursor, false, src.totalTurns, 0, 0, false, 0, false, src.digest)
    else EventPage(src, rows, UpperBound(src, req), req)
  }

  // ---------------------------------------------------------------------------------
  // The backward walk
  // ---------------------------------------------------------------------------------

  /** All rows form groups, so the group of row `lo + k` is the `k`th. */
  lemma {:induction false} EventGroups(src: Source, rows: seq<Row>, lo: nat, hi: nat, k: nat)
    requires lo <= hi <= |rows| == |src.turns| && k < hi - lo
    ensures var gs := GroupsOf(EventParts(src, rows, lo, hi), lo); var e := EventEntry(src, rows, lo + k);
            |gs| == hi - lo && gs[k] == Group(lo + k, [e], InlineBytes(e))
    decreases hi
  {
    hide NewEntry, EntryIds.Format, InlineBytes;
    var parts := EventParts(src, rows, lo, hi);
    assert parts[..|parts| - 1] == EventParts(src, rows, lo, hi - 1);
    var last := EventEntry(src, rows, hi - 1);
    assert [last][..0] == [] && BytesOf([last][..0]) == 0;
    if hi - 1 > lo {
      EventGroups(src, rows, lo, hi - 1, if k < hi - 1 - lo then k else 0);
    }
  }

  /** The walk has kept `gs[k..]`, at this cost, and not passed the cut. */
  ghost predicate Walking(gs: seq<Group>, k: nat, entryCount: nat, byteCount: nat, req: Request) {
    && k <= |gs| && entryCount == EntryCount(gs[k..]) && byteCount == ByteCount(gs[k..])
    && (k < |gs| ==> Cut(gs, req.entries, req.bytes) == CutFrom(gs, req.entries, req.bytes, k))
  }

  lemma {:induction false} WalkStarts(gs: seq<Group>, req: Request)
    ensures Walking(gs, |gs|, 0, 0, req)
  {
    assert gs[|gs|..] == [];
  }

  /** One step of the backward walk: the group is taken when it is the newest or affordable;
      otherwise the walk is at the cut. */
  lemma {:induction false} WalkStep(gs: seq<Group>, k: nat, entryCount: nat, byteCount: nat, req: Request)
    requires 0 < k && Walking(gs, k, entryCount, byteCount, req)
    ensures var e, b := entryCount + |gs[k - 1].entries|, byteCount + gs[k - 1].bytes;
            if k == |gs| || (e <= req.entries && b <= req.bytes) then Walking(gs, k - 1, e, b, req)
            else Cut(gs, req.entries, req.bytes) == k
  {
    assert gs[k - 1..][1..] == gs[k..];
  }

  lemma {:induction false} WalkEnds(gs: seq<Group>, entryCount: nat, byteCount: nat, req: Request)
    requires Walking(gs, 0, entryCount, byteCount, req)
    ensures Cut(gs, req.entries, req.bytes) == 0
  {
  }

  /** The oldest row the walk turns into an entry: the first one kept, or the one before it that no
      longer fits. */
  function Visited(src: Source, rows: seq<Row>, candidateLo: nat, hi: nat, req: Request): int
    requires candidateLo < hi <= |rows| == |src.turns|
  {
    Max(candidateLo, CutStart(EventParts(src, rows, candidateLo, hi), candidateLo, req.entries, req.bytes) - 1)
  }

  lemma {:induction false} NotPastCut(src: Source, rows: seq<Row>, candidateLo: nat, hi: nat, req: Request, lo: nat,
                                      entryCount: nat, byteCount: nat)
    requires candidateLo < lo <= hi <= |rows| == |src.turns|
    requires Walking(GroupsOf(EventParts(src, rows, candidateLo, hi), candidateLo), lo - candidateLo, entryCount,
               byteCount,
               req)
    ensures Visited(src, rows, candidateLo, hi, req) <= lo - 1
  {
    hide EventParts, GroupsOf, EntryCount, ByteCount, Cut, NewEntry;
    var gs := GroupsOf(EventParts(src, rows, candidateLo, hi), candidateLo);
    EventGroups(src, rows, candidateLo, hi, 0);
    EventGroups(src, rows, candidateLo, hi, Cut(gs, req.entries, req.bytes));
  }

  /** The request returns: every row the walk visits can become an entry. */
  ghost predicate EventReturns(src: Source, rows: seq<Row>, hi: nat, req: Request)
    requires 0 < hi <= |rows| == |src.turns| && req.turns > 0
  {
    TurnStartBelow(src.turns, hi, req.turns);
    forall i :: Visited(src, rows, TurnStart(src.turns, hi, req.turns), hi, req) <= i < hi ==> RowSplits(rows[i])
  }

  ghost predicate EventSliceReturns(src: Source, rows: seq<Row>, req: Request)
    requires src.total == |rows| == |src.turns| && req.turns > 0
  {
    var c := Bound(req.cursor);
    (c.Some? && c.value.digest != src.digest) || UpperBound(src, req) <= 0 ||
      EventReturns(src, rows, UpperBound(src, req), req)
  }

  /** The backward walk of pageHistoryEventRows with its entries, newest first. */
  method WalkBack(src: Source, rows: seq<Row>, candidateLo: nat, hi: nat, req: Request)
    returns (kept: seq<Entry>, lo: nat)
    requires candidateLo < hi <= |rows| == |src.turns|
    requires forall i :: Visited(src, rows, candidateLo, hi, req) <= i < hi ==> RowSplits(rows[i])
    ensures lo == CutStart(EventParts(src, rows, candidateLo, hi), candidateLo, req.entries, req.bytes)
    ensures |kept| == hi - lo && forall j :: 0 <= j < hi - lo ==> kept[j] == EventEntry(src, rows, hi - 1 - j)
  {
    hide NewEntry, EntryIds.Format, InlineBytes, Walking, Cut, EventParts, GroupsOf, EntryCount, ByteCount, RowSplits;
    ghost var gs := GroupsOf(EventParts(src, rows, candidateLo, hi), candidateLo);
    EventGroups(src, rows, candidateLo, hi, 0);
    kept, lo := [], hi;
    var entryCount: nat, byteCount: nat := 0, 0;
    WalkStarts(gs, req);
    while lo > candidateLo
      invariant candidateLo <= lo <= hi
      invariant |kept| == hi - lo && forall j :: 0 <= j < hi - lo ==> kept[j] == EventEntry(src, rows, hi - 1 - j)
      invariant Walking(gs, lo - candidateLo, entryCount, byteCount, req)
    {
      var i := lo - 1;
      EventGroups(src, rows, candidateLo, hi, i - candidateLo);
      WalkStep(gs, lo - candidateLo, entryCount, byteCount, req);
      NotPastCut(src, rows, candidateLo, hi, req, lo, entryCount, byteCount);
      var entry := NewHistoryEntry(src, EntryIds.Format(src.sessionID, 0, 'e', i, 0), i, rows[i]);
      var b := InlineBytes(entry);
      if |kept| > 0 && (entryCount + 1 > req.entries || byteCount + b > req.bytes) {
        EventGroups(src, rows, candidateLo, hi, lo - candidateLo);
        return;
      }
      kept := kept + [entry];
      entryCount := entryCount + 1;
      byteCount := byteCount + b;
      lo := i;
    }
    WalkEnds(gs, entryCount, byteCount, req);
  }

  /** The page of rows [start, hi) in display order. */
  lemma {:induction false} EventFlatten(src: Source, rows: seq<Row>, lo: nat, hi: nat, k: nat)
    requires lo <= hi <= |rows| == |src.turns|
    ensures |Flatten(EventParts(src, rows, lo, hi))| == hi - lo
    ensures k < hi - lo ==> Flatten(EventParts(src, rows, lo, hi))[k] == EventEntry(src, rows, lo + k)
    decreases hi
  {
    hide NewEntry, EntryIds.Format;
    if lo < hi {
      EventFlatten(src, rows, lo, hi - 1, k);
      var e := EventEntry(src, rows, hi - 1);
      assert EventParts(src, rows, lo, hi) == EventParts(src, rows, lo, hi - 1) + [[e]];
      FlattenAppend(EventParts(src, rows, lo, hi - 1), [[e]]);
      FlattenSingle([e]);
    }
  }

  lemma {:induction false} EventCut(src: Source, rows: seq<Row>, lo: nat, hi: nat, req: Request)
    requires lo < hi <= |rows| == |src.turns|
    ensures var start := CutStart(EventParts(src, rows, lo, hi), lo, req.entries, req.bytes);
            lo <= start < hi &&
            CutEntries(EventParts(src, rows, lo, hi), lo, req.entries, req.bytes) ==
              Flatten(EventParts(src, rows, start, hi))
  {
    hide NewEntry, EntryIds.Format;
    var parts := EventParts(src, rows, lo, hi);
    var start := CutStart(parts, lo, req.entries, req.bytes);
    CutKeepsSuffix(parts, lo, req.entries, req.bytes);
    assert parts[start - lo..] == EventParts(src, rows, start, hi);
  }

  /** The kept entries, newest first, put in display order. */
  method DisplayOrder(src: Source, rows: seq<Row>, lo: nat, hi: nat, kept: seq<Entry>) returns (entries: seq<Entry>)
    requires lo <= hi <= |rows| == |src.turns|
    requires |kept| == hi - lo && forall j :: 0 <= j < hi - lo ==> kept[j] == EventEntry(src, rows, hi - 1 - j)
    ensures entries == Flatten(EventParts(src, rows, lo, hi))
  {
    hide NewEntry, EntryIds.Format;
    entries := [];
    for j := 0 to |kept|
      invariant |entries| == j && forall t :: 0 <= t < j ==> entries[t] == kept[|kept| - 1 - t]
    {
      entries := entries + [kept[|kept| - 1 - j]];
    }
    EventFlatten(src, rows, lo, hi, 0);
    forall t | 0 <= t < hi - lo ensures entries[t] == Flatten(EventParts(src, rows, lo, hi))[t] {
      EventFlatten(src, rows, lo, hi, t);
    }
  }

  method PageHistoryEventRows(plain: Source, rows: seq<Row>, req: Request) returns (page: Page)
    requires req.turns > 0 && EventSliceReturns(EventSource(plain, rows), rows, req)
    ensures page == EventSlice(EventSource(plain, rows), rows, req)
  {
    hide NewEntry, EntryIds.Format, StartTurn, EndTurn;
    var src := EventSource(plain, rows);
    var c := Bound(req.cursor);
    if c.Some? && src.digest != c.value.digest {
      return Page([], NoCursor, false, 0, 0, 0, true, 0, false, src.digest);
    }
    var hi: int := |rows|;
    if c.Some? && c.value.before < hi {
      hi := c.value.before;
    }
    if hi <= 0 {
      return Page([], NoCursor, false, src.totalTurns, 0, 0, false, 0, false, src.digest);
    }
    TurnStartBelow(src.turns, hi, req.turns);
    var candidateLo := TurnStart(src.turns, hi, req.turns);
    var kept, lo := WalkBack(src, rows, candidateLo, hi, req);
    EventCut(src, rows, candidateLo, hi, req);
    var entries := DisplayOrder(src, rows, lo, hi, kept);
    return EventPageFrom(src, entries, lo);
  }

  // ---------------------------------------------------------------------------------
  // Pages join to all rows
  // ---------------------------------------------------------------------------------

  ghost predicate EventFollows(src: Source, rows: seq<Row>, reqs: seq<Request>, pages: seq<Page>)
    requires src.total == |rows| == |src.turns|
  {
    && |reqs| == |pages| > 0
    && reqs[0].cursor.NoCursor?
    && (forall j :: 0 <= j < |pages| - 1 ==> pages[j].next.Encoded? && reqs[j + 1].cursor == pages[j].next)
    && (forall j :: 0 <= j < |reqs| ==> EventAnswers(src, rows, reqs[j], pages[j]))
  }

  /** The request returns, and with this page. */
  ghost predicate EventAnswers(src: Source, rows: seq<Row>, req: Request, page: Page)
    requires src.total == |rows| == |src.turns|
  {
    EventSliceReturns(src, rows, Normalize(req)) && page == EventSlice(src, rows, Normalize(req))
  }

  lemma {:induction false} EventPageIsBlock(src: Source, rows: seq<Row>, hi: nat, req: Request)
    requires 0 < hi <= |rows| == |src.turns| && req.turns > 0
    ensures var start := EventStart(src, rows, hi, req); var page := EventPage(src, rows, hi, req);
            && start < hi
            && Flatten(EventParts(src, rows, 0, hi)) == Flatten(EventParts(src, rows, 0, start)) + page.entries
            && page.next == if start > 0 then Encoded(Cursor(1, 0, false, src.digest, start)) else NoCursor
  {
    hide NewEntry, EntryIds.Format, CutEntries, CutStart;
    TurnStartBelow(src.turns, hi, req.turns);
    var start := EventStart(src, rows, hi, req);
    EventCut(src, rows, TurnStart(src.turns, hi, req.turns), hi, req);
    assert EventParts(src, rows, 0, hi) == EventParts(src, rows, 0, start) + EventParts(src, rows, start, hi);
    FlattenAppend(EventParts(src, rows, 0, start), EventParts(src, rows, start, hi));
  }

  lemma {:induction false} EventContinues(src: Source, rows: seq<Row>, reqs: seq<Request>, pages: seq<Page>, j: nat,
                                          start: nat)
    requires src.total == |rows| == |src.turns| && EventFollows(src, rows, reqs, pages) && j < |pages| - 1
    requires 0 < start < src.total && pages[j].next == Encoded(Cursor(1, 0, false, src.digest, start))
    ensures pages[j + 1] == EventPage(src, rows, start, Normalize(reqs[j + 1]))
  {
    hide EventPage, EventParts;
    assert EventAnswers(src, rows, reqs[j + 1], pages[j + 1]);
    assert UpperBound(src, Normalize(reqs[j + 1])) == start;
  }

  lemma {:induction false} EventPagesJoinBelow(src: Source, rows: seq<Row>, reqs: seq<Request>, pages: seq<Page>,
                                               j: nat, end: nat)
    requires src.total == |rows| == |src.turns| && EventFollows(src, rows, reqs, pages) && j < |pages|
    requires 0 < end <= src.total && pages[j] == EventPage(src, rows, end, Normalize(reqs[j]))
    requires pages[|pages| - 1].next.NoCursor?
    ensures PagesJoined(pages[j..]) == Flatten(EventParts(src, rows, 0, end))
    decreases |pages| - j
  {
    hide EventPage, EventParts, EventSlice, Normalize;
    EventPageIsBlock(src, rows, end, Normalize(reqs[j]));
    assert pages[j..][1..] == pages[j + 1..];
    var start := EventStart(src, rows, end, Normalize(reqs[j]));
    if j + 1 < |pages| {
      EventContinues(src, rows, reqs, pages, j, start);
      EventPagesJoinBelow(src, rows, reqs, pages, j + 1, start);
    } else {
      assert start == 0;
      EmptyParts(src, rows);
    }
  }

  lemma {:induction false} EmptyParts(src: Source, rows: seq<Row>)
    requires |rows| == |src.turns|
    ensures Flatten(EventParts(src, rows, 0, 0)) == []
  {
  }

  /** Event-format pages, under whatever budgets, join to the entries of all rows. */
  lemma {:induction false} EventPagesReproduceRows(src: Source, rows: seq<Row>, reqs: seq<Request>, pages: seq<Page>)
    requires src.total == |rows| == |src.turns| && EventFollows(src, rows, reqs, pages)
    requires pages[|pages| - 1].next.NoCursor?
    ensures PagesJoined(pages) == Flatten(EventParts(src, rows, 0, |rows|))
  {
    hide EventPage, EventParts;
    assert EventAnswers(src, rows, reqs[0], pages[0]);
    if rows == [] {
      assert pages[0].entries == [] && |pages| == 1 && pages[1..] == [];
      EmptyParts(src, rows);
    } else {
      EventPagesJoinBelow(src, rows, reqs, pages, 0, src.total);
      FullSlice(pages);
    }
  }
}
