/** The windowed history pager: what a page is, as a function of the session. */
module PageSpec {
  import opened Prelude
  import opened HistoryModel
  import opened Convert
  import opened HistorySource
  import opened Entries
  import opened Cuts
  import ToolResults
  import Todos
  import Times

  /** Everything besides the source view that a conversion reads. */
  datatype Session = Session(
    rules: Rules, msgs: seq<Message>, times: Times.UserTimes,
    planners: seq<PlannerTurn>, checkpoints: map<int, int>)

  // ---------------------------------------------------------------------------------
  // Full conversion: the reference
  // ---------------------------------------------------------------------------------

  function Displayed(s: Session): (out: seq<Message>)
    ensures |out| == |s.msgs|
  {
    Times.Overlay(s.rules, s.msgs, s.times, 0)
  }

  function FullLookups(s: Session): Lookups {
    Lookups(s.checkpoints, Todos.TodoArgs(s.rules, Displayed(s)), ToolResults.ResultsById(Displayed(s)))
  }

  function FullState(s: Session, i: nat): Planner
    requires i <= |s.msgs|
  {
    ConvertAll(s.rules, Initial(s.rules, s.planners), Displayed(s)[..i])
  }

  /** The rows message `i` becomes in one pass over the whole transcript. */
  function FullRows(s: Session, i: nat): seq<Row>
    requires i < |s.msgs|
  {
    ConvertStep(s.rules, FullState(s, i), i, Displayed(s)[i], FullLookups(s)).rows
  }

  /** Rows of the first `n` messages in one pass. */
  function RowsUpTo(s: Session, n: nat): seq<Row>
    requires n <= |s.msgs|
  {
    if n == 0 then [] else RowsUpTo(s, n - 1) + FullRows(s, n - 1)
  }

  /** historyMessagesWithPlannerDisplays over the whole displayed transcript. */
  method FullConversion(s: Session) returns (rows: seq<Row>)
    ensures rows == RowsUpTo(s, |s.msgs|)
  {
    hide ConvertStep, ConvertNext, Times.Overlay, Todos.TodoArgs, Initial;
    var msgs := Times.WithPersistedTimes(s.rules, s.msgs, s.times, 0);
    var results := ToolResults.HistoryToolResultsByID(msgs);
    var lk := Lookups(s.checkpoints, Todos.TodoArgs(s.rules, msgs), results);
    var state := new ConvertState(s.rules, s.planners);
    rows := [];
    for i := 0 to |msgs|
      invariant state.rules == s.rules && state.View() == FullState(s, i)
      invariant rows == RowsUpTo(s, i)
    {
      assert msgs[..i + 1][..i] == msgs[..i];
      var part := state.ConvertHistoryMessage(i, msgs[i], lk);
      rows := rows + part;
    }
  }

  // ---------------------------------------------------------------------------------
  // Windowed conversion: what a page over [lo, hi) renders
  // ---------------------------------------------------------------------------------

  function WindowMessages(s: Session, lo: nat, hi: nat): (out: seq<Message>)
    requires lo <= hi <= |s.msgs|
    ensures |out| == hi - lo
  {
    Times.WindowOverlay(s.rules, s.msgs, s.times, lo, hi)
  }

  function PrimedState(s: Session, lo: nat): Planner
    requires lo <= |s.msgs|
  {
    var start := Initial(s.rules, s.planners);
    if start.queues == map[] then start else ConsumeAll(s.rules, start, s.msgs[..lo])
  }

  function WindowState(s: Session, lo: nat, hi: nat, i: nat): Planner
    requires lo <= i <= hi <= |s.msgs|
  {
    ConvertAll(s.rules, PrimedState(s, lo), WindowMessages(s, lo, hi)[..i - lo])
  }

  ghost function WindowResults(s: Session, lo: nat, hi: nat): map<string, Message>
    requires lo <= hi <= |s.msgs|
  {
    map id | id in ToolResults.CallIds(s.msgs[lo..hi]) && ToolResults.WindowResult(s.msgs, lo, hi, id).Some? ::
      ToolResults.WindowResult(s.msgs, lo, hi, id).value
  }

  function WindowTodoArgs(s: Session, lo: nat, hi: nat): map<string, string>
    requires lo <= hi <= |s.msgs|
  {
    if Todos.ContainsTodoWrite(s.msgs[lo..hi]) then Todos.TodoArgs(s.rules, s.msgs) else map[]
  }

  ghost function WindowLookups(s: Session, lo: nat, hi: nat): Lookups
    requires lo <= hi <= |s.msgs|
  {
    Lookups(s.checkpoints, WindowTodoArgs(s, lo, hi), WindowResults(s, lo, hi))
  }

  ghost function WindowRows(s: Session, lo: nat, hi: nat, i: nat): seq<Row>
    requires lo <= i < hi <= |s.msgs|
  {
    ConvertStep(s.rules, WindowState(s, lo, hi, i), i, WindowMessages(s, lo, hi)[i - lo], WindowLookups(s, lo, hi)).rows
  }

  /** Entries of each message of the window. */
  ghost function WindowParts(s: Session, src: Source, lo: nat, hi: nat): (parts: seq<seq<Entry>>)
    requires lo <= hi <= |s.msgs| == |src.turns|
    ensures |parts| == hi - lo
  {
    seq(hi - lo, k requires 0 <= k < hi - lo => EntriesOf(src, lo + k, WindowRows(s, lo, hi, lo + k)))
  }

  /** Entries of each message in the full conversion. */
  function FullParts(s: Session, src: Source): (parts: seq<seq<Entry>>)
    requires |s.msgs| == |src.turns|
    ensures |parts| == |s.msgs|
  {
    seq(|s.msgs|, i requires 0 <= i < |s.msgs| => EntriesOf(src, i, FullRows(s, i)))
  }

  // ---------------------------------------------------------------------------------
  // Cursor and window
  // ---------------------------------------------------------------------------------

  /** historySliceCursor. */
  datatype Cursor = Cursor(v: int, revision: int, revKnown: bool, digest: string, before: int)

  /** The opaque cursor string of a request: absent, only blanks, undecodable, or the
      encoding of a cursor. */
  datatype CursorText = NoCursor | Blank | Garbage | Encoded(cursor: Cursor)

  datatype Request = Request(cursor: CursorText, turns: int, entries: int, bytes: int)

  /** decodeHistorySliceCursor, None on error. */
  function Decode(text: CursorText): Option<Cursor> {
    match text
    case Garbage => None
    case Encoded(c) => if c.v != 1 || c.before < 0 then None else Some(c)
    case _ => Some(Cursor(0, 0, false, "", 0))
  }

  /** The cursor a request is bound to; an undecodable one asks for the latest page. */
  function Bound(text: CursorText): Option<Cursor> {
    if text.NoCursor? then None else Decode(text)
  }

  /** identityMatches. */
  predicate IdentityMatches(src: Source, revision: int, revKnown: bool, digest: string) {
    src.revKnown == revKnown && src.revision == (if revKnown then revision else 0) && src.digest == digest
  }

  /** normalizeHistorySliceRequest. */
  function Clamp(value: int, default: int, max: int): (v: int)
    requires 0 < default <= max
    ensures 0 < v <= max
  {
    if value <= 0 then default else if value > max then max else value
  }

  function Normalize(req: Request): (n: Request)
    ensures n.turns > 0 && n.entries > 0 && n.bytes > 0 && n.cursor == req.cursor
    ensures n.turns <= 500 && (0 < req.turns <= 500 ==> n.turns == req.turns) && (req.turns <= 0 ==> n.turns == 12)
    ensures n.entries <= 1000 && (0 < req.entries <= 1000 ==> n.entries == req.entries) &&
              (req.entries <= 0 ==> n.entries == 120)
    ensures n.bytes <= 8 * 1024 * 1024 && (0 < req.bytes <= 8 * 1024 * 1024 ==> n.bytes == req.bytes) &&
              (req.bytes <= 0 ==> n.bytes == 512 * 1024)
  {
    Request(req.cursor, Clamp(req.turns, 12, 500), Clamp(req.entries, 120, 1000), Clamp(req.bytes, 524288, 8388608))
  }

  /** historySliceColdWindowBytes. */
  const COLD_WINDOW_BYTES := 33554432

  function OldestTurn(turns: seq<int>, hi: nat, budget: int): int
    requires 0 < hi <= |turns|
  {
    if turns[hi - 1] > 0 then Max(turns[hi - 1] - budget + 1, 1) else 0
  }

  /** sort.Search for the first index in [i, j) whose turn reaches `target`. */
  function SearchFrom(turns: seq<int>, target: int, i: nat, j: nat): (k: nat)
    requires i <= j <= |turns|
    ensures i <= k <= j
    decreases j - i
  {
    if i == j then i
    else
      var h := (i + j) / 2;
      if turns[h] < target then SearchFrom(turns, target, h + 1, j) else SearchFrom(turns, target, i, h)
  }

  /** Raw-span cap: move the window start forward while its byte span is excessive. */
  function SpanStart(span: (int, int) -> int, lo: nat, hi: nat): (k: nat)
    requires lo < hi
    ensures lo <= k < hi
    decreases hi - lo
  {
    if lo < hi - 1 && span(lo, hi) > COLD_WINDOW_BYTES then SpanStart(span, lo + 1, hi) else lo
  }

  function TurnStart(turns: seq<int>, hi: nat, budget: int): (k: nat)
    requires 0 < hi <= |turns|
    ensures k <= hi
  {
    var oldest := OldestTurn(turns, hi, budget);
    if oldest <= 1 then 0 else SearchFrom(turns, oldest, 0, hi)
  }

  lemma {:induction false} Midpoint(i: nat, j: nat)
    requires i < j
    ensures i <= (i + j) / 2 < j
  {
  }

  lemma {:induction false} SearchStep(turns: seq<int>, target: int, i: nat, j: nat)
    requires i < j <= |turns|
    ensures i <= (i + j) / 2 < j
    ensures var h := (i + j) / 2;
            SearchFrom(turns, target, i, j) ==
            if turns[h] < target then SearchFrom(turns, target, h + 1, j) else SearchFrom(turns, target, i, h)
  {
    Midpoint(i, j);
  }

  /** The search result is a crossing point, whether or not the turns are sorted. */
  lemma {:induction false} SearchCrosses(turns: seq<int>, target: int, i: nat, j: nat, hi: nat)
    requires i <= j <= hi <= |turns|
    requires i == 0 || turns[i - 1] < target
    requires j == hi || turns[j] >= target
    ensures var k := SearchFrom(turns, target, i, j);
            (k == 0 || turns[k - 1] < target) && (k == hi || turns[k] >= target)
    decreases j - i
  {
    hide SearchFrom;
    if i < j {
      SearchStep(turns, target, i, j);
      var h := (i + j) / 2;
      if turns[h] < target {
        SearchCrosses(turns, target, h + 1, j, hi);
      } else {
        SearchCrosses(turns, target, i, h, hi);
      }
    } else {
      SearchDone(turns, target, i);
    }
  }

  lemma {:induction false} SearchDone(turns: seq<int>, target: int, i: nat)
    requires i <= |turns|
    ensures SearchFrom(turns, target, i, i) == i
  {
  }

  /** The turn budget never empties the window: paging always makes progress. */
  lemma {:induction false} TurnStartBelow(turns: seq<int>, hi: nat, budget: int)
    requires 0 < hi <= |turns| && budget > 0
    ensures TurnStart(turns, hi, budget) < hi
  {
    SearchCrosses(turns, OldestTurn(turns, hi, budget), 0, hi, hi);
  }

  ghost predicate Sorted(turns: seq<int>) {
    forall i, j :: 0 <= i <= j < |turns| ==> turns[i] <= turns[j]
  }

  /** On sorted turns the window is exactly the messages of the newest `budget` turns, plus
      the messages before the first turn when it reaches that turn. */
  lemma {:induction false} TurnStartExact(turns: seq<int>, hi: nat, budget: int, i: nat)
    requires 0 < hi <= |turns| && budget > 0 && Sorted(turns) && i < hi
    ensures TurnStart(turns, hi, budget) <= i <==>
            (turns[i] > turns[hi - 1] - budget || turns[hi - 1] - budget < 1)
  {
    SearchCrosses(turns, OldestTurn(turns, hi, budget), 0, hi, hi);
  }

  function WindowStart(src: Source, hi: nat, budget: int): (lo: nat)
    requires 0 < hi <= |src.turns| && budget > 0
    ensures lo < hi
  {
    TurnStartBelow(src.turns, hi, budget);
    var lo := TurnStart(src.turns, hi, budget);
    match src.windowBytes
    case None => lo
    case Some(span) => SpanStart(span, lo, hi)
  }

  // ---------------------------------------------------------------------------------
  // Page
  // ---------------------------------------------------------------------------------

  /** HistorySlice.  `next` is NoCursor when there is nothing older. */
  datatype Page = Page(
    entries: seq<Entry>, next: CursorText, hasOlder: bool, totalTurns: int,
    startTurn: int, endTurn: int, stale: bool, revision: int, revKnown: bool, digest: string)

  function EmptyPage(src: Source): Page {
    Page([], NoCursor, false, src.totalTurns, 0, 0, false, src.revision, src.revKnown, src.digest)
  }

  function StalePage(src: Source): Page {
    Page([], NoCursor, false, 0, 0, 0, true, src.revision, src.revKnown, src.digest)
  }

  function StartTurn(entries: seq<Entry>): int {
    if entries == [] then 0
    else
      var prev := StartTurn(entries[..|entries| - 1]);
      var turn := entries[|entries| - 1].turn;
      if turn > 0 && (prev == 0 || turn < prev) then turn else prev
  }

  function EndTurn(entries: seq<Entry>): int {
    if entries == [] then 0
    else
      var prev := EndTurn(entries[..|entries| - 1]);
      var turn := entries[|entries| - 1].turn;
      if turn > 0 && turn > prev then turn else prev
  }

  function OwnCursor(src: Source, start: nat): Cursor {
    Cursor(1, src.revision, src.revKnown, src.digest, start)
  }

  function PageFrom(src: Source, entries: seq<Entry>, start: nat): Page {
    EmptyPage(src).(
    entries := entries, startTurn := StartTurn(entries), endTurn := EndTurn(entries),
    hasOlder := start > 0, next := if start > 0 then Encoded(OwnCursor(src, start)) else NoCursor)
  }

  /** Oldest message the page ending at `hi` covers. */
  ghost function PageStart(s: Session, src: Source, hi: nat, req: Request): (start: nat)
    requires 0 < hi <= |s.msgs| == |src.turns| && req.turns > 0
    ensures start < hi
  {
    var lo := WindowStart(src, hi, req.turns);
    CutStart(WindowParts(s, src, lo, hi), lo, req.entries, req.bytes)
  }

  ghost function PageEntries(s: Session, src: Source, hi: nat, req: Request): seq<Entry>
    requires 0 < hi <= |s.msgs| == |src.turns| && req.turns > 0
  {
    var lo := WindowStart(src, hi, req.turns);
    CutEntries(WindowParts(s, src, lo, hi), lo, req.entries, req.bytes)
  }

  /** The page ending at message `hi`. */
  ghost function PageEndingAt(s: Session, src: Source, hi: nat, req: Request): Page
    requires 0 < hi <= |s.msgs| == |src.turns| && req.turns > 0
  {
    PageFrom(src, PageEntries(s, src, hi, req), PageStart(s, src, hi, req))
  }

  /** Entries of successive pages, newest page first, joined oldest first. */
  ghost function PagesJoined(pages: seq<Page>): seq<Entry> {
    if pages == [] then [] else PagesJoined(pages[1..]) + pages[0].entries
  }

  function UpperBound(src: Source, req: Request): int {
    match Bound(req.cursor)
    case None => src.total
    case Some(c) => if c.before < src.total then c.before else src.total
  }

  /** pageHistorySliceSource as a function: the page a normalized request gets. */
  ghost function SlicePage(s: Session, src: Source, req: Request): Page
    requires src.total == |s.msgs| == |src.turns| && req.turns > 0
  {
    var c := Bound(req.cursor);
    if c.Some? && !IdentityMatches(src, c.value.revision, c.value.revKnown, c.value.digest) then StalePage(src)
    else if UpperBound(src, req) <= 0 then EmptyPage(src)
    else PageEndingAt(s, src, UpperBound(src, req), req)
  }

  // ---------------------------------------------------------------------------------
  // Which requests return
  // ---------------------------------------------------------------------------------

  /** Every row of the window of the page ending at `hi` can become an entry.  The page counts the
      chunks of every oversized field of its window, whether or not the budgets keep the row. */
  ghost predicate PageReturns(s: Session, src: Source, hi: nat, req: Request)
    requires 0 < hi <= |s.msgs| == |src.turns| && req.turns > 0
  {
    forall i :: WindowStart(src, hi, req.turns) <= i < hi ==> RowsSplitAt(s, WindowStart(src, hi, req.turns), hi, i)
  }

  ghost predicate RowsSplitAt(s: Session, lo: nat, hi: nat, i: int)
    requires hi <= |s.msgs|
  {
    lo <= i < hi ==> RowsSplit(WindowRows(s, lo, hi, i))
  }

  ghost predicate SliceReturns(s: Session, src: Source, req: Request)
    requires src.total == |s.msgs| == |src.turns| && req.turns > 0
  {
    var c := Bound(req.cursor);
    || (c.Some? && !IdentityMatches(src, c.value.revision, c.value.revKnown, c.value.digest))
    || UpperBound(src, req) <= 0
    || PageReturns(s, src, UpperBound(src, req), req)
  }

  /** A page request returns, that is every entry its window makes does, exactly when every field
      of the rows of the window splits. */
  lemma {:induction false} PageReturnsIff(s: Session, src: Source, hi: nat, req: Request)
    requires 0 < hi <= |s.msgs| == |src.turns| && req.turns > 0
    ensures PageReturns(s, src, hi, req) <==>
            forall i :: WindowStart(src, hi, req.turns) <= i < hi ==>
              EntriesReturn(s, WindowStart(src, hi, req.turns), hi, i)
  {
    hide WindowRows, WindowStart, RowSplits, EntryReturns;
    var lo := WindowStart(src, hi, req.turns);
    forall i | lo <= i < hi ensures EntriesReturn(s, lo, hi, i) <==> RowsSplitAt(s, lo, hi, i) {
      forall k | 0 <= k < |WindowRows(s, lo, hi, i)|
        ensures EntryReturns(WindowRows(s, lo, hi, i)[k]) <==> RowSplits(WindowRows(s, lo, hi, i)[k])
      {
        EntryReturnsIff(WindowRows(s, lo, hi, i)[k]);
      }
    }
  }

  /** Every entry of message `i` of the window returns. */
  ghost predicate EntriesReturn(s: Session, lo: nat, hi: nat, i: int)
    requires hi <= |s.msgs|
  {
    lo <= i < hi ==> forall k :: 0 <= k < |WindowRows(s, lo, hi, i)| ==> EntryReturns(WindowRows(s, lo, hi, i)[k])
  }

  /** A session of well-formed UTF-8 gets an answer to every request. */
  lemma {:induction false} ValidPagesReturn(s: Session, src: Source, hi: nat, req: Request)
    requires 0 < hi <= |s.msgs| == |src.turns| && req.turns > 0
    requires forall lo: nat, i: nat, k :: lo <= i < hi && 0 <= k < |WindowRows(s, lo, hi, i)| ==>
               ValidRow(WindowRows(s, lo, hi, i)[k])
    ensures PageReturns(s, src, hi, req)
  {
    hide WindowRows, WindowStart, RowSplits, ValidRow;
    var lo := WindowStart(src, hi, req.turns);
    forall i | lo <= i < hi ensures RowsSplitAt(s, lo, hi, i) {
      forall k | 0 <= k < |WindowRows(s, lo, hi, i)| ensures RowSplits(WindowRows(s, lo, hi, i)[k]) {
        ValidRowSplits(WindowRows(s, lo, hi, i)[k]);
      }
    }
  }
}
