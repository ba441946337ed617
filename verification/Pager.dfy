/** The pager as the source runs it, and the law that its pages join to the full conversion. */
module Pager {
  import opened Prelude
  import opened HistoryModel
  import opened Convert
  import opened HistorySource
  import opened Entries
  import opened Cuts
  import opened PageSpec
  import ToolResults
  import Todos
  import Times

  // ---------------------------------------------------------------------------------
  // Running a page request
  // ---------------------------------------------------------------------------------

  /** primeHistoryPlannerState, over bounded chunks. */
  method PrimeHistoryPlannerState(src: Source, state: ConvertState, end: nat, ghost s: Session) returns (r: Result<()>)
    requires Serves(src, s.msgs) && end <= src.total && state.rules == s.rules
    requires state.View() == Initial(s.rules, s.planners)
    modifies state
    ensures r.Ok? ==> state.View() == PrimedState(s, end)
    ensures r.Err? ==> !Readable(src)
  {
    ghost var start := state.View();
    if end <= 0 || state.queues == map[] {
      assert s.msgs[..0] == [];
      return Ok(());
    }
    var lo := 0;
    while lo < end
      invariant 0 <= lo <= end
      invariant state.View() == ConsumeAll(s.rules, start, s.msgs[..lo])
    {
      var hi := Min(lo + LOOKUP_CHUNK, end);
      var chunk := FetchWindow(src, lo, hi, s.msgs);
      if chunk.Err? {
        return Err(chunk.message);
      }
      ConsumeChunk(state, chunk.value);
      ConsumeAllConcat(s.rules, start, s.msgs[..lo], s.msgs[lo..hi]);
      assert s.msgs[..lo] + s.msgs[lo..hi] == s.msgs[..hi];
      lo := hi;
    }
    return Ok(());
  }

  method ConsumeChunk(state: ConvertState, msgs: seq<Message>)
    modifies state
    ensures state.View() == ConsumeAll(state.rules, old(state.View()), msgs)
  {
    ghost var start := state.View();
    for k := 0 to |msgs|
      invariant state.View() == ConsumeAll(state.rules, start, msgs[..k])
    {
      assert msgs[..k + 1][..k] == msgs[..k];
      state.ConsumeHistoryPlannerState(msgs[k]);
    }
    assert msgs[..|msgs|] == msgs;
  }

  method CountUsersBefore(src: Source, lo: nat, ghost msgs: seq<Message>) returns (count: nat)
    requires Serves(src, msgs) && lo <= src.total
    ensures count == Times.Users(msgs, lo)
  {
    count := 0;
    for i := 0 to lo
      invariant count == Times.Users(msgs, i)
    {
      if src.roles[i].User? {
        count := count + 1;
      }
    }
  }

  /** Lower end of the window, found by binary search and the span cap. */
  method FindWindowStart(src: Source, hi: nat, budget: int) returns (lo: nat)
    requires 0 < hi <= |src.turns| && budget > 0
    ensures lo == WindowStart(src, hi, budget)
  {
    hide SearchFrom;
    TurnStartBelow(src.turns, hi, budget);
    var oldest := 0;
    if src.turns[hi - 1] > 0 {
      oldest := Max(src.turns[hi - 1] - budget + 1, 1);
    }
    var i, j := 0, hi;
    while i < j
      invariant 0 <= i <= j <= hi
      invariant SearchFrom(src.turns, oldest, i, j) == SearchFrom(src.turns, oldest, 0, hi)
    {
      SearchStep(src.turns, oldest, i, j);
      var h := (i + j) / 2;
      if src.turns[h] < oldest {
        i := h + 1;
      } else {
        j := h;
      }
    }
    SearchDone(src.turns, oldest, i);
    lo := i;
    if oldest <= 1 {
      lo := 0;
    }
    if src.windowBytes.Some? {
      var span := src.windowBytes.value;
      while lo < hi - 1 && span(lo, hi) > COLD_WINDOW_BYTES
        invariant 0 <= lo < hi
        invariant SpanStart(span, lo, hi) == WindowStart(src, hi, budget)
      {
        lo := lo + 1;
      }
    }
  }

  /** The state a page loop carries answers for each call of the window as the page
      specification does. */
  ghost predicate LookupsServe(s: Session, lo: nat, hi: nat, lk: Lookups)
    requires lo <= hi <= |s.msgs|
  {
    forall i :: lo <= i < hi ==> LookupsServeAt(s, lo, hi, lk, i)
  }

  ghost predicate LookupsServeAt(s: Session, lo: nat, hi: nat, lk: Lookups, i: nat)
    requires lo <= i < hi <= |s.msgs|
  {
    SameLookups(WindowMessages(s, lo, hi)[i - lo], lk, WindowLookups(s, lo, hi))
  }

  lemma {:induction false} WindowKeepsCalls(s: Session, lo: nat, hi: nat, i: nat)
    requires lo <= i < hi <= |s.msgs|
    ensures SameButTime(s.msgs[i], WindowMessages(s, lo, hi)[i - lo])
    ensures !s.msgs[i].role.User? ==> WindowMessages(s, lo, hi)[i - lo] == s.msgs[i]
  {
    Times.WindowOverlayAt(s.rules, s.msgs, s.times, lo, hi, i);
  }

  lemma {:induction false} LookupsServed(s: Session, lo: nat, hi: nat, lk: Lookups)
    requires lo <= hi <= |s.msgs|
    requires lk.checkpoints == s.checkpoints && lk.todoArgs == WindowTodoArgs(s, lo, hi)
    requires forall id ::
               id in ToolResults.CallIds(s.msgs[lo..hi]) ==>
                 ToolResults.Answers(lk.results, id, ToolResults.WindowResult(s.msgs, lo, hi, id))
    requires "" !in lk.results
    ensures LookupsServe(s, lo, hi, lk)
  {
    forall i | lo <= i < hi
      ensures LookupsServeAt(s, lo, hi, lk, i)
    {
      WindowKeepsCalls(s, lo, hi, i);
      var m := s.msgs[i];
      forall k | 0 <= k < |m.toolCalls|
        ensures ResultText(lk.results, m.toolCalls[k].id) == ResultText(WindowResults(s, lo, hi), m.toolCalls[k].id)
      {
        CallTextServed(s, lo, hi, i, k, lk.results);
      }
    }
  }

  lemma {:induction false} CallTextServed(s: Session, lo: nat, hi: nat, i: nat, k: nat, results: map<string, Message>)
    requires lo <= i < hi <= |s.msgs| && k < |s.msgs[i].toolCalls|
    requires forall id ::
               id in ToolResults.CallIds(s.msgs[lo..hi]) ==>
                 ToolResults.Answers(results, id, ToolResults.WindowResult(s.msgs, lo, hi, id))
    requires "" !in results
    ensures ResultText(results, s.msgs[i].toolCalls[k].id) ==
              ResultText(WindowResults(s, lo, hi), s.msgs[i].toolCalls[k].id)
  {
    var id := s.msgs[i].toolCalls[k].id;
    if id != "" {
      assert s.msgs[lo..hi][i - lo] == s.msgs[i];
      assert id in ToolResults.CallIds(s.msgs[lo..hi]);
    }
  }

  lemma {:induction false} WindowCallIds(s: Session, lo: nat, hi: nat)
    requires lo <= hi <= |s.msgs|
    ensures ToolResults.CallIds(WindowMessages(s, lo, hi)) == ToolResults.CallIds(s.msgs[lo..hi])
    ensures Todos.ContainsTodoWrite(WindowMessages(s, lo, hi)) == Todos.ContainsTodoWrite(s.msgs[lo..hi])
  {
    var w, m := WindowMessages(s, lo, hi), s.msgs[lo..hi];
    forall k | 0 <= k < hi - lo ensures w[k].toolCalls == m[k].toolCalls {
      WindowKeepsCalls(s, lo, hi, lo + k);
    }
  }

  lemma {:induction false} ResultsOfOverlay(a: seq<Message>, b: seq<Message>)
    requires |a| == |b| && forall k :: 0 <= k < |a| ==> SameButTime(a[k], b[k]) && (!a[k].role.User? ==> a[k] == b[k])
    ensures ToolResults.ResultsById(a) == ToolResults.ResultsById(b)
  {
    if a != [] {
      ResultsOfOverlay(a[..|a| - 1], b[..|b| - 1]);
    }
  }

  lemma {:induction false} WindowResultsMap(s: Session, lo: nat, hi: nat)
    requires lo <= hi <= |s.msgs|
    ensures ToolResults.ResultsById(WindowMessages(s, lo, hi)) == ToolResults.ResultsById(s.msgs[lo..hi])
  {
    var w, m := WindowMessages(s, lo, hi), s.msgs[lo..hi];
    forall k | 0 <= k < |m| ensures SameButTime(m[k], w[k]) && (!m[k].role.User? ==> m[k] == w[k]) {
      WindowKeepsCalls(s, lo, hi, lo + k);
    }
    ResultsOfOverlay(m, w);
  }

  /** The lookups of one window: todo replay only when a todo_write is visible, and tool
      results from the window plus look-ahead. */
  method GatherLookups(src: Source, lo: nat, hi: nat, window: seq<Message>, ghost s: Session, rules: Rules,
                       checkpoints: map<int, int>)
    returns (r: Result<Lookups>)
    requires Serves(src, s.msgs) && lo <= hi <= src.total
    requires rules == s.rules && checkpoints == s.checkpoints
    requires window == WindowMessages(s, lo, hi) || window == s.msgs[lo..hi]
    ensures r.Ok? ==> LookupsServe(s, lo, hi, r.value)
    ensures r.Err? ==> !Readable(src)
  {
    WindowCallIds(s, lo, hi);
    WindowResultsMap(s, lo, hi);
    var todoArgs: map<string, string> := map[];
    if Todos.ContainsTodoWrite(window) {
      var derived := Todos.HistoryTodoArgsForSource(rules, src, s.msgs);
      if derived.Err? {
        return Err(derived.message);
      }
      todoArgs := derived.value;
    }
    var results := ToolResults.HistoryToolResultsByID(window);
    var extended := ToolResults.ExtendHistoryToolResults(src, lo, hi, results, window, s.msgs);
    if extended.Err? {
      return Err(extended.message);
    }
    var lk := Lookups(checkpoints, todoArgs, extended.value);
    LookupsServed(s, lo, hi, lk);
    return Ok(lk);
  }

  /** One message of the conversion loop. */
  method ConvertInWindow(state: ConvertState, lo: nat, hi: nat, i: nat, m: Message, lk: Lookups, ghost s: Session)
    returns (rows: seq<Row>)
    requires lo <= i < hi <= |s.msgs| && state.rules == s.rules
    requires m == WindowMessages(s, lo, hi)[i - lo] && LookupsServeAt(s, lo, hi, lk, i)
    requires state.View() == WindowState(s, lo, hi, i)
    modifies state
    ensures rows == WindowRows(s, lo, hi, i)
    ensures state.View() == WindowState(s, lo, hi, i + 1)
  {
    hide ConvertStep, ConvertNext, WindowLookups, PrimedState;
    var w := WindowMessages(s, lo, hi);
    assert w[..i + 1 - lo][..i - lo] == w[..i - lo];
    RowsUseOwnCalls(s.rules, state.View(), i, m, lk, WindowLookups(s, lo, hi));
    rows := state.ConvertHistoryMessage(i, m, lk);
  }

  /** The conversion loop of pageHistorySliceSource with its running budget trim. */
  method CutPage(src: Source, lo: nat, hi: nat, req: Request, window: seq<Message>, lk: Lookups, state: ConvertState,
                 ghost s: Session)
    returns (groups: seq<Group>)
    requires src.total == |s.msgs| == |src.turns| && lo <= hi <= src.total && state.rules == s.rules
    requires window == WindowMessages(s, lo, hi) && LookupsServe(s, lo, hi, lk)
    requires state.View() == WindowState(s, lo, hi, lo) && forall i :: lo <= i < hi ==> RowsSplitAt(s, lo, hi, i)
    modifies state
    ensures var gs := GroupsOf(WindowParts(s, src, lo, hi), lo); groups == gs[Cut(gs, req.entries, req.bytes)..]
  {
    hide WindowRows, Cut, LookupsServeAt, RowsSplit, GroupsOf, EntryCount, ByteCount, WindowParts, WindowState,
      EntriesOf;
    NoGroups(lo, req);
    groups := [];
    var entryCount, byteCount := 0, 0;
    ghost var parts: seq<seq<Entry>> := [];
    var i := lo;
    while i < hi
      invariant lo <= i <= hi && parts == WindowParts(s, src, lo, hi)[..i - lo]
      invariant state.View() == WindowState(s, lo, hi, i)
      invariant entryCount == EntryCount(groups) && byteCount == ByteCount(groups)
      invariant groups == GroupsOf(parts, lo)[Cut(GroupsOf(parts, lo), req.entries, req.bytes)..]
    {
      assert LookupsServeAt(s, lo, hi, lk, i) && RowsSplitAt(s, lo, hi, i);
      var rows := ConvertInWindow(state, lo, hi, i, window[i - lo], lk, s);
      groups, entryCount, byteCount := KeepRows(src, i, rows, groups, entryCount, byteCount, req, parts, lo);
      NextPart(s, src, lo, hi, i);
      parts := parts + [EntriesOf(src, i, rows)];
      i := i + 1;
    }
    FullSlice(WindowParts(s, src, lo, hi));
  }

  lemma {:induction false} NoGroups(lo: nat, req: Request)
    ensures GroupsOf([], lo) == [] && Cut([], req.entries, req.bytes) == 0 && EntryCount([]) == 0 && ByteCount([]) == 0
  {
  }

  lemma {:induction false} NextPart(s: Session, src: Source, lo: nat, hi: nat, i: nat)
    requires lo <= i < hi <= |s.msgs| == |src.turns|
    ensures WindowParts(s, src, lo, hi)[..i + 1 - lo] ==
              WindowParts(s, src, lo, hi)[..i - lo] + [EntriesOf(src, i, WindowRows(s, lo, hi, i))]
  {
    hide WindowRows;
  }

  /** Turn the rows of message `i` into a group and trim; messages without rows are skipped. */
  method KeepRows(src: Source, i: nat, rows: seq<Row>, kept: seq<Group>, entryCount: nat, byteCount: nat, req: Request,
                  ghost parts: seq<seq<Entry>>, ghost base: nat)
    returns (groups: seq<Group>, entryNow: nat, byteNow: nat)
    requires i < |src.turns| && i == base + |parts| && RowsSplit(rows)
    requires entryCount == EntryCount(kept) && byteCount == ByteCount(kept)
    requires kept == GroupsOf(parts, base)[Cut(GroupsOf(parts, base), req.entries, req.bytes)..]
    ensures entryNow == EntryCount(groups) && byteNow == ByteCount(groups)
    ensures var gs := GroupsOf(parts + [EntriesOf(src, i, rows)], base); groups == gs[Cut(gs, req.entries, req.bytes)..]
  {
    hide Cut, EntryCount, ByteCount, GroupsOf, EntriesOf, BytesOf, RowsSplit;
    ghost var next := parts + [EntriesOf(src, i, rows)];
    assert next[..|next| - 1] == parts;
    GroupsSnoc(next, base);
    EntriesCount(src, i, rows);
    if rows == [] {
      return kept, entryCount, byteCount;
    }
    var entries, bytes := NewHistoryEntries(src, i, rows);
    groups, entryNow, byteNow := AppendAndTrim(kept, entryCount, byteCount, Group(i, entries, bytes),
      req.entries, req.bytes, GroupsOf(parts, base));
  }

  lemma {:induction false} EntriesCount(src: Source, i: nat, rows: seq<Row>)
    requires i < |src.turns|
    ensures |EntriesOf(src, i, rows)| == |rows|
  {
  }

  method JoinGroups(groups: seq<Group>) returns (entries: seq<Entry>)
    ensures entries == AllEntries(groups)
  {
    entries := [];
    for i := 0 to |groups|
      invariant entries == AllEntries(groups[..i])
    {
      assert groups[..i + 1] == groups[..i] + [groups[i]];
      CountsAppend(groups[..i], [groups[i]]);
      entries := entries + groups[i].entries;
    }
    assert groups[..|groups|] == groups;
  }

  method TurnRange(entries: seq<Entry>) returns (start: int, end: int)
    ensures start == StartTurn(entries) && end == EndTurn(entries)
  {
    start, end := 0, 0;
    for i := 0 to |entries|
      invariant start == StartTurn(entries[..i]) && end == EndTurn(entries[..i])
    {
      assert entries[..i + 1][..i] == entries[..i];
      var turn := entries[i].turn;
      if turn > 0 {
        if start == 0 || turn < start {
          start := turn;
        }
        if turn > end {
          end := turn;
        }
      }
    }
    assert entries[..|entries|] == entries;
  }

  /** The window, conversion and cut of pageHistorySliceSource for the page ending at `hi`. */
  method PageBelow(src: Source, hi: nat, req: Request, s: Session) returns (r: Result<Page>)
    requires Serves(src, s.msgs) && 0 < hi <= src.total && req.turns > 0 && PageReturns(s, src, hi, req)
    ensures r.Ok? ==> r.value == PageEndingAt(s, src, hi, req)
    ensures r.Err? ==> !Readable(src)
  {
    hide WindowRows, RowsSplitAt;
    var lo := FindWindowStart(src, hi, req.turns);
    var fetched := FetchWindow(src, lo, hi, s.msgs);
    if fetched.Err? {
      return Err(fetched.message);
    }
    var offset := CountUsersBefore(src, lo, s.msgs);
    var window := Times.WithPersistedTimes(s.rules, fetched.value, s.times, offset);
    var gathered := GatherLookups(src, lo, hi, window, s, s.rules, s.checkpoints);
    if gathered.Err? {
      return Err(gathered.message);
    }
    var state := new ConvertState(s.rules, s.planners);
    var primed := PrimeHistoryPlannerState(src, state, lo, s);
    if primed.Err? {
      return Err(primed.message);
    }
    assert WindowMessages(s, lo, hi)[..0] == [];
    var groups := CutPage(src, lo, hi, req, window, gathered.value, state, s);
    var page := FinishPage(src, groups, lo);
    return Ok(page);
  }

  /** Flatten the kept groups and describe the page. */
  method FinishPage(src: Source, groups: seq<Group>, lo: nat) returns (page: Page)
    ensures page == PageFrom(src, AllEntries(groups), if groups == [] then lo else groups[0].index)
  {
    var start := if |groups| > 0 then groups[0].index else lo;
    var entries := JoinGroups(groups);
    var startTurn, endTurn := TurnRange(entries);
    page := EmptyPage(src).(entries := entries, startTurn := startTurn, endTurn := endTurn, hasOlder := start > 0);
    if page.hasOlder {
      page := page.(next := Encoded(Cursor(1, src.revision, src.revKnown, src.digest, start)));
    }
  }

  /** pageHistorySliceSource for a normalized request that returns.  A failed or short read gives
      an error, never a wrong page. */
  method PageHistorySliceSource(src: Source, req: Request, s: Session) returns (r: Result<Page>)
    requires Serves(src, s.msgs) && req.turns > 0 && SliceReturns(s, src, req)
    ensures r.Ok? ==> r.value == SlicePage(s, src, req)
    ensures r.Err? ==> !Readable(src)
  {
    var c := Bound(req.cursor);
    if c.Some? && !IdentityMatches(src, c.value.revision, c.value.revKnown, c.value.digest) {
      return Ok(StalePage(src));
    }
    var hi: int := src.total;
    if c.Some? && c.value.before < hi {
      hi := c.value.before;
    }
    if hi <= 0 || src.total == 0 {
      return Ok(EmptyPage(src));
    }
    r := PageBelow(src, hi, req, s);
  }

  // ---------------------------------------------------------------------------------
  // Windows render what the full conversion renders
  // ---------------------------------------------------------------------------------

  /** Every message before the last is in step in the state the full pass reaches it in. */
  ghost predicate PlannerSafe(s: Session) {
    forall i :: 0 <= i < |s.msgs| - 1 ==> InStepAt(s.rules, FullState(s, i), s.msgs[i])
  }

  /** A persisted time the whole-transcript overlay gives to a rendered message is one its own
      window asks for. */
  ghost predicate TimeSafe(s: Session, i: nat)
    requires i < |s.msgs|
  {
    (Times.NeedsTimes(s.rules, s.msgs) && Times.Patched(s.msgs, s.times, i) &&
     ShowsBody(s.rules, FullState(s, i), i, s.msgs[i], FullLookups(s))) ==> Authored(s.rules, s.msgs[i])
  }

  /** Results are settled around every call that is rendered. */
  ghost predicate ResultsSettled(s: Session) {
    forall i, k ::
      0 <= i < |s.msgs| && AssistantLike(s.msgs[i]) && 0 <= k < |s.msgs[i].toolCalls| &&
        s.msgs[i].toolCalls[k].id != "" ==>
        ToolResults.Settled(s.msgs, i, s.msgs[i].toolCalls[k].id)
  }

  /** The transcript is one on which a cut cannot be seen. */
  ghost predicate CutSafe(s: Session) {
    && PlannerSafe(s)
    && (forall i :: 0 <= i < |s.msgs| ==> TimeSafe(s, i))
    && ResultsSettled(s)
  }

  lemma {:induction false} DisplayedAt(s: Session, i: nat)
    requires i < |s.msgs|
    ensures SameButTime(s.msgs[i], Displayed(s)[i])
    ensures !s.msgs[i].role.User? ==> Displayed(s)[i] == s.msgs[i]
  {
  }

  lemma {:induction false} FullStateOfMessages(s: Session, i: nat)
    requires i <= |s.msgs|
    ensures FullState(s, i) == ConvertAll(s.rules, Initial(s.rules, s.planners), s.msgs[..i])
  {
    hide ConvertAll;
    forall k | 0 <= k < i ensures SameButTime(s.msgs[..i][k], Displayed(s)[..i][k]) {
      DisplayedAt(s, k);
    }
    AllIgnoresTime(s.rules, Initial(s.rules, s.planners), s.msgs[..i], Displayed(s)[..i]);
  }

  lemma {:induction false} NoDisplaysInStep(s: Session, i: nat)
    requires i < |s.msgs| && QueuesOf(s.rules, s.planners) == map[]
    ensures FullState(s, i) == Initial(s.rules, s.planners) && InStepAt(s.rules, FullState(s, i), s.msgs[i])
  {
    hide ConvertAll;
    NoDisplaysNoState(s.rules, Displayed(s)[..i]);
  }

  /** The primed state of every prefix of the first `n` messages is the state of the full pass
      exactly when each of these messages is in step there; without planner displays, when
      priming is skipped, they always are. */
  lemma {:induction false} PrimedIsFullIff(s: Session, n: nat)
    requires n <= |s.msgs|
    ensures (forall lo :: 0 <= lo <= n ==> PrimedState(s, lo) == FullState(s, lo)) <==>
            (forall i :: 0 <= i < n ==> InStepAt(s.rules, FullState(s, i), s.msgs[i]))
  {
    hide ConvertAll, ConsumeAll, InStepAt;
    var start, prefix := Initial(s.rules, s.planners), s.msgs[..n];
    if start.queues == map[] {
      forall i | 0 <= i < n ensures InStepAt(s.rules, FullState(s, i), s.msgs[i]) {
        NoDisplaysInStep(s, i);
      }
      forall lo | 0 <= lo <= n ensures PrimedState(s, lo) == FullState(s, lo) {
        NoDisplaysNoState(s.rules, Displayed(s)[..lo]);
      }
    } else {
      forall lo | 0 <= lo <= n ensures prefix[..lo] == s.msgs[..lo] &&
        FullState(s, lo) == ConvertAll(s.rules, start, prefix[..lo]) {
        FullStateOfMessages(s, lo);
      }
      PrefixesAgreeIff(s.rules, start, prefix);
      PrimedByPrefixes(s, n);
    }
  }

  lemma {:induction false} PrimedByPrefixes(s: Session, n: nat)
    requires n <= |s.msgs| && QueuesOf(s.rules, s.planners) != map[]
    requires forall lo :: 0 <= lo <= n ==> s.msgs[..n][..lo] == s.msgs[..lo]
    ensures (forall lo :: 0 <= lo <= n ==> PrimedState(s, lo) == FullState(s, lo)) <==>
            (forall lo :: 0 <= lo <= |s.msgs[..n]| ==>
               ConsumeAll(s.rules, Initial(s.rules, s.planners), s.msgs[..n][..lo]) ==
                 ConvertAll(s.rules, Initial(s.rules, s.planners), s.msgs[..n][..lo]))
  {
    hide ConvertAll, ConsumeAll;
    var start := Initial(s.rules, s.planners);
    forall lo | 0 <= lo <= n
      ensures PrimedState(s, lo) == FullState(s, lo) <==>
              ConsumeAll(s.rules, start, s.msgs[..n][..lo]) == ConvertAll(s.rules, start, s.msgs[..n][..lo])
    {
      FullStateOfMessages(s, lo);
    }
  }

  lemma {:induction false} PrimedIsFull(s: Session, lo: nat)
    requires lo < |s.msgs| && PlannerSafe(s)
    ensures PrimedState(s, lo) == FullState(s, lo)
  {
    hide InStepAt, PrimedState, FullState;
    PrimedIsFullIff(s, |s.msgs| - 1);
  }

  lemma {:induction false} WindowSameButTime(s: Session, lo: nat, hi: nat, i: nat)
    requires lo <= i <= hi <= |s.msgs|
    ensures forall k :: 0 <= k < i - lo ==> SameButTime(WindowMessages(s, lo, hi)[..i - lo][k], Displayed(s)[lo..i][k])
  {
    hide SameButTime, WindowMessages, Displayed;
    var w, d := WindowMessages(s, lo, hi)[..i - lo], Displayed(s)[lo..i];
    forall k | 0 <= k < i - lo ensures SameButTime(w[k], d[k]) {
      WindowKeepsCalls(s, lo, hi, lo + k);
      DisplayedAt(s, lo + k);
      SameButTimeBoth(s.msgs[lo + k], w[k], d[k]);
    }
  }

  /** Converting from any cut point continues in the state of the full pass. */
  lemma {:induction false} WindowStateIsFull(s: Session, lo: nat, hi: nat, i: nat)
    requires lo <= i <= hi <= |s.msgs| && lo < hi && PlannerSafe(s)
    ensures WindowState(s, lo, hi, i) == FullState(s, i)
  {
    hide ConvertAll, ConvertNext, SameButTime, WindowMessages, Displayed, PrimedState, PlannerSafe;
    PrimedIsFull(s, lo);
    WindowSameButTime(s, lo, hi, i);
    AllIgnoresTime(s.rules, FullState(s, lo), WindowMessages(s, lo, hi)[..i - lo], Displayed(s)[lo..i]);
    ConvertAllConcat(s.rules, Initial(s.rules, s.planners), Displayed(s)[..lo], Displayed(s)[lo..i]);
    assert Displayed(s)[..lo] + Displayed(s)[lo..i] == Displayed(s)[..i];
  }

  lemma {:induction false} ReplayOfOverlay(r: Rules, ok: set<string>, st: Todos.Replay, a: seq<Message>,
                                           b: seq<Message>)
    requires |a| == |b| && forall k :: 0 <= k < |a| ==> a[k].toolCalls == b[k].toolCalls
    ensures Todos.ReplayAll(r, ok, st, a) == Todos.ReplayAll(r, ok, st, b)
  {
    if a != [] {
      ReplayOfOverlay(r, ok, st, a[..|a| - 1], b[..|b| - 1]);
    }
  }

  lemma {:induction false} TodoArgsOfDisplayed(s: Session)
    ensures Todos.TodoArgs(s.rules, Displayed(s)) == Todos.TodoArgs(s.rules, s.msgs)
  {
    var d := Displayed(s);
    forall k | 0 <= k < |d| ensures SameButTime(s.msgs[k], d[k]) &&
      Todos.Succeeds(s.rules, d[k]) == Todos.Succeeds(s.rules, s.msgs[k]) {
      DisplayedAt(s, k);
    }
    assert Todos.Successful(s.rules, d) == Todos.Successful(s.rules, s.msgs);
    ReplayOfOverlay(s.rules, Todos.Successful(s.rules, d), Todos.START, d, s.msgs);
  }

  lemma {:induction false} ResultsOfDisplayed(s: Session)
    ensures ToolResults.ResultsById(Displayed(s)) == ToolResults.ResultsById(s.msgs)
  {
    forall k | 0 <= k < |s.msgs| ensures SameButTime(s.msgs[k], Displayed(s)[k]) &&
      (!s.msgs[k].role.User? ==> s.msgs[k] == Displayed(s)[k]) {
      DisplayedAt(s, k);
    }
    ResultsOfOverlay(s.msgs, Displayed(s));
  }

  lemma {:induction false} CallTextIsFull(s: Session, lo: nat, hi: nat, i: nat, k: nat)
    requires lo <= i < hi <= |s.msgs| && k < |s.msgs[i].toolCalls|
    requires s.msgs[i].toolCalls[k].id != "" ==> ToolResults.Settled(s.msgs, i, s.msgs[i].toolCalls[k].id)
    ensures var id := s.msgs[i].toolCalls[k].id;
            ResultText(WindowResults(s, lo, hi), id) == ResultText(ToolResults.ResultsById(s.msgs), id)
  {
    var id := s.msgs[i].toolCalls[k].id;
    ToolResults.MapAnswersLast(s.msgs, 0, |s.msgs|, id);
    assert s.msgs[0..|s.msgs|] == s.msgs;
    if id != "" {
      ToolResults.SettledWindow(s.msgs, i, id, lo, hi);
      assert s.msgs[lo..hi][i - lo] == s.msgs[i];
      assert id in ToolResults.CallIds(s.msgs[lo..hi]);
    } else {
      assert ToolResults.Last(s.msgs, 0, |s.msgs|, id) == -1;
    }
  }

  lemma {:induction false} LookupsAreFull(s: Session, lo: nat, hi: nat, i: nat)
    requires lo <= i < hi <= |s.msgs| && ResultsSettled(s)
    ensures SameLookups(WindowMessages(s, lo, hi)[i - lo], WindowLookups(s, lo, hi), FullLookups(s))
  {
    TodoArgsOfDisplayed(s);
    ResultsOfDisplayed(s);
    WindowKeepsCalls(s, lo, hi, i);
    var m := s.msgs[i];
    forall k | AssistantLike(m) && 0 <= k < |m.toolCalls|
      ensures ResultText(WindowResults(s, lo, hi), m.toolCalls[k].id) ==
                ResultText(FullLookups(s).results, m.toolCalls[k].id)
      ensures CallArguments(m.toolCalls[k], WindowTodoArgs(s, lo, hi)) ==
                CallArguments(m.toolCalls[k], FullLookups(s).todoArgs)
    {
      CallTextIsFull(s, lo, hi, i, k);
      assert s.msgs[lo..hi][i - lo].toolCalls[k] == m.toolCalls[k];
    }
  }

  /** Rows of message `i` converted as in the window, but with the state and lookups of the
      full pass: only the timestamp is the window's. */
  function TimedRows(s: Session, lo: nat, hi: nat, i: nat): seq<Row>
    requires lo <= i < hi <= |s.msgs|
  {
    ConvertStep(s.rules, FullState(s, i), i, WindowMessages(s, lo, hi)[i - lo], FullLookups(s)).rows
  }

  lemma {:induction false} WindowRowsAreTimed(s: Session, lo: nat, hi: nat, i: nat)
    requires lo <= i < hi <= |s.msgs| && PlannerSafe(s) && ResultsSettled(s)
    ensures WindowRows(s, lo, hi, i) == TimedRows(s, lo, hi, i)
  {
    hide PlannerSafe, ResultsSettled, SameLookups, FullState, WindowLookups, FullLookups;
    WindowStateIsFull(s, lo, hi, i);
    LookupsAreFull(s, lo, hi, i);
    RowsUseOwnCalls(s.rules, FullState(s, i), i, WindowMessages(s, lo, hi)[i - lo], WindowLookups(s, lo, hi),
      FullLookups(s));
  }

  /** In every window the message gets the time, or at least the rows, of the full pass exactly
      when it is time-safe. */
  lemma {:induction false} TimesAgreeIff(s: Session, i: nat)
    requires i < |s.msgs|
    ensures TimeSafe(s, i) <==>
              forall lo: nat, hi: nat :: lo <= i < hi <= |s.msgs| ==> TimedRows(s, lo, hi, i) == FullRows(s, i)
  {
    hide TimeSafe;
    if TimeSafe(s, i) {
      forall lo: nat, hi: nat | lo <= i < hi <= |s.msgs| ensures TimedRows(s, lo, hi, i) == FullRows(s, i) {
        TimeSafeWindow(s, lo, hi, i);
      }
    } else {
      OwnWindowDiffers(s, i);
    }
  }

  lemma {:induction false} TimedRowsIff(s: Session, lo: nat, hi: nat, i: nat)
    requires lo <= i < hi <= |s.msgs|
    ensures TimedRows(s, lo, hi, i) == FullRows(s, i) <==>
            (Times.NeedsTimes(s.rules, s.msgs[lo..hi]) || !Times.NeedsTimes(s.rules, s.msgs) ||
              !Times.Patched(s.msgs, s.times, i)
             || !ShowsBody(s.rules, FullState(s, i), i, s.msgs[i], FullLookups(s)))
  {
    hide ConvertStep, FullState, FullLookups, ShowsBody, Times.NeedsTimes, Times.Patched, Times.Overlay,
      Times.WindowOverlay;
    var w, d := WindowMessages(s, lo, hi)[i - lo], Displayed(s)[i];
    WindowKeepsCalls(s, lo, hi, i);
    DisplayedAt(s, i);
    SameButTimeBoth(s.msgs[i], w, d);
    Times.WindowOverlayAtIff(s.rules, s.msgs, s.times, lo, hi, i);
    RowsSameIff(s.rules, FullState(s, i), i, w, d, FullLookups(s));
    BodyIgnoresTime(s.rules, FullState(s, i), i, s.msgs[i], w, FullLookups(s));
  }

  lemma {:induction false} TimeSafeWindow(s: Session, lo: nat, hi: nat, i: nat)
    requires lo <= i < hi <= |s.msgs| && TimeSafe(s, i)
    ensures TimedRows(s, lo, hi, i) == FullRows(s, i)
  {
    hide TimedRows, FullRows, ShowsBody, FullState;
    TimedRowsIff(s, lo, hi, i);
    if Times.Patched(s.msgs, s.times, i) && Authored(s.rules, s.msgs[i]) {
      assert Times.Untimed(s.rules, s.msgs[lo..hi][i - lo]);
    }
  }

  lemma {:induction false} OwnWindowDiffers(s: Session, i: nat)
    requires i < |s.msgs| && !TimeSafe(s, i)
    ensures TimedRows(s, i, i + 1, i) != FullRows(s, i)
  {
    hide TimedRows, FullRows, ShowsBody, FullState, FullLookups, Times.NeedsTimes, Authored;
    TimedRowsIff(s, i, i + 1, i);
    assert s.msgs[i..i + 1] == [s.msgs[i]];
    LoneNeeds(s.rules, s.msgs[i]);
  }

  lemma {:induction false} LoneNeeds(r: Rules, m: Message)
    ensures Times.NeedsTimes(r, [m]) <==> Times.Untimed(r, m)
  {
    hide Authored;
    if Times.Untimed(r, m) {
      assert Times.Untimed(r, [m][0]);
    }
  }

  /** A message renders the same rows in every window as in the full conversion. */
  lemma {:induction false} WindowRowsAreFull(s: Session, lo: nat, hi: nat, i: nat)
    requires lo <= i < hi <= |s.msgs| && CutSafe(s)
    ensures WindowRows(s, lo, hi, i) == FullRows(s, i)
  {
    hide WindowRows, FullRows, TimedRows, TimeSafe, PlannerSafe, ResultsSettled;
    WindowRowsAreTimed(s, lo, hi, i);
    TimeSafeWindow(s, lo, hi, i);
  }

  /** Without time-safety the rows still agree up to timestamps. */
  lemma {:induction false} WindowRowsButTime(s: Session, lo: nat, hi: nat, i: nat)
    requires lo <= i < hi <= |s.msgs| && PlannerSafe(s) && ResultsSettled(s)
    ensures SameRows(WindowRows(s, lo, hi, i), FullRows(s, i))
  {
    hide WindowRows, ConvertStep, PlannerSafe, ResultsSettled, FullState, FullLookups;
    WindowRowsAreTimed(s, lo, hi, i);
    WindowKeepsCalls(s, lo, hi, i);
    DisplayedAt(s, i);
    SameButTimeBoth(s.msgs[i], WindowMessages(s, lo, hi)[i - lo], Displayed(s)[i]);
    RowsButTime(s.rules, FullState(s, i), i, WindowMessages(s, lo, hi)[i - lo], Displayed(s)[i], FullLookups(s));
  }

  // ---------------------------------------------------------------------------------
  // Pages join to the full conversion
  // ---------------------------------------------------------------------------------

  lemma {:induction false} WindowPartIsFull(s: Session, src: Source, lo: nat, hi: nat, i: nat)
    requires lo <= i < hi <= |s.msgs| == |src.turns| && CutSafe(s)
    ensures WindowParts(s, src, lo, hi)[i - lo] == FullParts(s, src)[i]
  {
    WindowRowsAreFull(s, lo, hi, i);
  }

  lemma {:induction false} WindowPartsAreFull(s: Session, src: Source, lo: nat, hi: nat)
    requires lo <= hi <= |s.msgs| == |src.turns| && CutSafe(s)
    ensures WindowParts(s, src, lo, hi) == FullParts(s, src)[lo..hi]
  {
    hide *;
    var w, f := WindowParts(s, src, lo, hi), FullParts(s, src);
    forall k | 0 <= k < hi - lo ensures w[k] == f[lo + k] {
      WindowPartIsFull(s, src, lo, hi, lo + k);
    }
    SameSlice(w, f, lo, hi);
  }

  lemma {:induction false} SameSlice<T>(w: seq<T>, f: seq<T>, lo: nat, hi: nat)
    requires lo <= hi <= |f| && |w| == hi - lo && forall k :: 0 <= k < hi - lo ==> w[k] == f[lo + k]
    ensures w == f[lo..hi]
  {
  }

  lemma {:induction false} SliceOfSlice<T>(w: seq<T>, f: seq<T>, lo: nat, start: nat, hi: nat)
    requires lo <= start <= hi <= |f| && w == f[lo..hi]
    ensures w[start - lo..] == f[start..hi]
  {
  }

  /** A page is exactly a contiguous block of the full conversion, ending where it was asked
      to end and starting strictly below. */
  lemma {:induction false} PageIsBlock(s: Session, src: Source, hi: nat, req: Request)
    requires 0 < hi <= |s.msgs| == |src.turns| && req.turns > 0 && CutSafe(s)
    ensures PageStart(s, src, hi, req) < hi
    ensures PageEntries(s, src, hi, req) == Flatten(FullParts(s, src)[PageStart(s, src, hi, req)..hi])
  {
    hide WindowRows, FullRows, WindowStart, WindowParts, FullParts, CutStart, CutEntries, CutSafe;
    var lo := WindowStart(src, hi, req.turns);
    var parts, start := WindowParts(s, src, lo, hi), PageStart(s, src, hi, req);
    CutKeepsSuffix(parts, lo, req.entries, req.bytes);
    WindowPartsAreFull(s, src, lo, hi);
    SliceOfSlice(parts, FullParts(s, src), lo, start, hi);
  }

  /** `pages` answers `reqs` in turn: the first request carries no cursor, each later one the
      cursor of the page before it; budgets are free. */
  ghost predicate Follows(s: Session, src: Source, reqs: seq<Request>, pages: seq<Page>)
    requires src.total == |s.msgs| == |src.turns|
  {
    Chain(s, src, reqs, pages) && reqs[0].cursor.NoCursor?
  }

  ghost predicate Chain(s: Session, src: Source, reqs: seq<Request>, pages: seq<Page>)
    requires src.total == |s.msgs| == |src.turns|
  {
    && |reqs| == |pages| > 0
    && (forall j :: 0 <= j < |pages| - 1 ==> pages[j].next.Encoded? && reqs[j + 1].cursor == pages[j].next)
    && (forall j :: 0 <= j < |reqs| ==> Answers(s, src, reqs[j], pages[j]))
  }

  /** The request returns, and with this page. */
  ghost predicate Answers(s: Session, src: Source, req: Request, page: Page)
    requires src.total == |s.msgs| == |src.turns|
  {
    SliceReturns(s, src, Normalize(req)) && page == SlicePage(s, src, Normalize(req))
  }

  /** A source accepts the cursors it issues exactly when its revision is 0 while unknown. */
  lemma {:induction false} OwnCursorAcceptedIff(src: Source, start: nat)
    ensures Bound(Encoded(OwnCursor(src, start))) == Some(OwnCursor(src, start))
    ensures IdentityMatches(src, src.revision, src.revKnown, src.digest) <==> src.revKnown || src.revision == 0
  {
  }

  lemma {:induction false} PageEndingFacts(s: Session, src: Source, hi: nat, req: Request)
    requires 0 < hi <= |s.msgs| == |src.turns| && req.turns > 0
    ensures var page := PageEndingAt(s, src, hi, req); var start := PageStart(s, src, hi, req);
            && start < hi && !page.stale && page.entries == PageEntries(s, src, hi, req)
            && page.next == (if start > 0 then Encoded(OwnCursor(src, start)) else NoCursor)
  {
    hide WindowRows, CutStart;
  }

  /** Continuing from a page's cursor serves the page that ends where that page began. */
  lemma {:induction false} OwnCursorContinues(s: Session, src: Source, req: Request, before: nat)
    requires src.total == |s.msgs| == |src.turns| && req.turns > 0
    requires src.revKnown || src.revision == 0
    requires req.cursor == Encoded(OwnCursor(src, before)) && 0 < before < src.total
    ensures SlicePage(s, src, req) == PageEndingAt(s, src, before, req) && UpperBound(src, req) == before
    ensures SliceReturns(s, src, req) <==> PageReturns(s, src, before, req)
  {
    hide PageEndingAt, PageReturns;
    OwnCursorAcceptedIff(src, before);
    assert UpperBound(src, req) == before;
  }

  /** In a chain, a page that ends at `end` is followed by the page that ends where it starts. */
  lemma {:induction false} ChainStep(s: Session, src: Source, reqs: seq<Request>, pages: seq<Page>, j: nat, end: nat)
    requires src.total == |s.msgs| == |src.turns| && Chain(s, src, reqs, pages) && j + 1 < |pages|
    requires src.revKnown || src.revision == 0
    requires 0 < end <= src.total && pages[j] == PageEndingAt(s, src, end, Normalize(reqs[j]))
    ensures var start := PageStart(s, src, end, Normalize(reqs[j]));
            && 0 < start < end && UpperBound(src, Normalize(reqs[j + 1])) == start
            && pages[j + 1] == PageEndingAt(s, src, start, Normalize(reqs[j + 1]))
  {
    hide PageEndingAt, PageStart, SlicePage, SliceReturns;
    PageEndingFacts(s, src, end, Normalize(reqs[j]));
    assert pages[j].next.Encoded? && reqs[j + 1].cursor == pages[j].next;
    assert Answers(s, src, reqs[j + 1], pages[j + 1]);
    OwnCursorContinues(s, src, Normalize(reqs[j + 1]), PageStart(s, src, end, Normalize(reqs[j])));
  }

  /** Pages read from the cursor `before` to the end join to the conversion of [0, before). */
  lemma {:induction false} PagesJoinBelow(s: Session, src: Source, reqs: seq<Request>, pages: seq<Page>, j: nat,
                                          end: nat)
    requires src.total == |s.msgs| == |src.turns| && Follows(s, src, reqs, pages) && j < |pages|
    requires (src.revKnown || src.revision == 0) && CutSafe(s)
    requires 0 < end <= src.total && pages[j] == PageEndingAt(s, src, end, Normalize(reqs[j]))
    requires pages[|pages| - 1].next.NoCursor?
    ensures PagesJoined(pages[j..]) == Flatten(FullParts(s, src)[..end])
    decreases |pages| - j
  {
    hide WindowRows, FullRows, FullParts, PageEndingAt, PageStart, PageEntries, CutSafe, UpperBound;
    var req := Normalize(reqs[j]);
    var start := PageStart(s, src, end, req);
    PageEndingFacts(s, src, end, req);
    PageIsBlock(s, src, end, req);
    assert pages[j..][1..] == pages[j + 1..];
    FlattenSplit(FullParts(s, src), start, end);
    if j + 1 < |pages| {
      ChainStep(s, src, reqs, pages, j, end);
      PagesJoinBelow(s, src, reqs, pages, j + 1, start);
    } else {
      assert start == 0;
      FullSlice(FullParts(s, src));
    }
  }

  /** The pager's law: following the cursor from the latest page to the end, under whatever
      budgets, the pages joined oldest first are the full conversion, with nothing lost,
      repeated or reordered. */
  lemma {:induction false} PagesReproduceFullConversion(s: Session, src: Source, reqs: seq<Request>, pages: seq<Page>)
    requires src.total == |s.msgs| == |src.turns| && Follows(s, src, reqs, pages)
    requires (src.revKnown || src.revision == 0) && CutSafe(s)
    requires pages[|pages| - 1].next.NoCursor?
    ensures PagesJoined(pages) == Flatten(FullParts(s, src))
  {
    hide WindowRows, FullRows;
    FullSlice(pages);
    if src.total == 0 {
      FirstPageEmpty(s, src, reqs, pages);
    } else {
      FirstPage(s, src, reqs, pages);
      PagesJoinBelow(s, src, reqs, pages, 0, src.total);
      FullSlice(FullParts(s, src));
    }
  }

  lemma {:induction false} FirstPage(s: Session, src: Source, reqs: seq<Request>, pages: seq<Page>)
    requires src.total == |s.msgs| == |src.turns| && Follows(s, src, reqs, pages) && src.total > 0
    ensures pages[0] == PageEndingAt(s, src, src.total, Normalize(reqs[0]))
  {
    hide WindowRows;
    assert Answers(s, src, reqs[0], pages[0]);
    assert pages[0] == SlicePage(s, src, Normalize(reqs[0]));
  }

  lemma {:induction false} FirstPageEmpty(s: Session, src: Source, reqs: seq<Request>, pages: seq<Page>)
    requires src.total == |s.msgs| == |src.turns| && Follows(s, src, reqs, pages) && src.total == 0
    ensures pages == [EmptyPage(src)]
  {
    hide WindowRows;
    assert Answers(s, src, reqs[0], pages[0]);
    assert pages[0] == SlicePage(s, src, Normalize(reqs[0])) == EmptyPage(src);
  }

  /** No run of pages is longer than the transcript: every page starts strictly below its
      end, so following cursors terminates. */
  lemma {:induction false} PagingTerminates(s: Session, src: Source, reqs: seq<Request>, pages: seq<Page>, j: nat,
                                            end: nat)
    requires src.total == |s.msgs| == |src.turns| && Follows(s, src, reqs, pages) && j < |pages|
    requires src.revKnown || src.revision == 0
    requires 0 < end <= src.total && pages[j] == PageEndingAt(s, src, end, Normalize(reqs[j]))
    ensures |pages| - j <= end
    decreases |pages| - j
  {
    hide PageEndingAt;
    PageEndingFacts(s, src, end, Normalize(reqs[j]));
    if j + 1 < |pages| {
      var start := PageStart(s, src, end, Normalize(reqs[j]));
      ChainStep(s, src, reqs, pages, j, end);
      PagingTerminates(s, src, reqs, pages, j + 1, start);
    }
  }

  /** When the revision is unknown but not 0 the source rejects its own cursors: every
      request after the first is answered stale, however many pages are left. */
  lemma {:induction false} UnknownRevisionStalls(s: Session, src: Source, reqs: seq<Request>, pages: seq<Page>, j: nat)
    requires src.total == |s.msgs| == |src.turns| && Follows(s, src, reqs, pages)
    requires !src.revKnown && src.revision != 0 && 0 < j < |pages|
    ensures j == 1 && pages[1] == StalePage(src)
  {
    SecondPageStale(s, src, reqs, pages);
  }

  lemma {:induction false} SecondPageStale(s: Session, src: Source, reqs: seq<Request>, pages: seq<Page>)
    requires src.total == |s.msgs| == |src.turns| && Follows(s, src, reqs, pages)
    requires !src.revKnown && src.revision != 0 && |pages| > 1
    ensures pages[1] == StalePage(src)
  {
    hide WindowRows, PageEndingAt;
    assert Answers(s, src, reqs[0], pages[0]) && Answers(s, src, reqs[1], pages[1]);
    assert pages[0] == SlicePage(s, src, Normalize(reqs[0]));
    assert pages[1] == SlicePage(s, src, Normalize(reqs[1]));
    if src.total > 0 {
      PageEndingFacts(s, src, src.total, Normalize(reqs[0]));
      OwnCursorAcceptedIff(src, PageStart(s, src, src.total, Normalize(reqs[0])));
    }
  }

  /** The entries of the full conversion are its rows, one for one, in display order. */
  lemma {:induction false} EntriesAreRows(s: Session, src: Source, n: nat, k: nat)
    requires n <= |s.msgs| == |src.turns|
    ensures |Flatten(FullParts(s, src)[..n])| == |RowsUpTo(s, n)|
    ensures k < |RowsUpTo(s, n)| ==> Flatten(FullParts(s, src)[..n])[k].message == InlineRow(RowsUpTo(s, n)[k])
  {
    hide FullRows, InlineRow;
    if n > 0 {
      EntriesAreRows(s, src, n - 1, k);
      FlattenSplit(FullParts(s, src), n - 1, n);
      FlattenSingle(FullParts(s, src)[n - 1]);
      assert FullParts(s, src)[n - 1..n] == [FullParts(s, src)[n - 1]];
    }
  }

  /** With turns in order, a page never reaches past its turn budget: a message older than
      the newest `turns` turns is left for an older page unless the budget covers all turns. */
  lemma {:induction false} PageWithinTurns(s: Session, src: Source, hi: nat, req: Request, i: nat)
    requires 0 < hi <= |s.msgs| == |src.turns| && req.turns > 0 && Sorted(src.turns)
    requires PageStart(s, src, hi, req) <= i < hi
    ensures src.turns[i] > src.turns[hi - 1] - req.turns || src.turns[hi - 1] <= req.turns
  {
    hide WindowRows;
    TurnStartExact(src.turns, hi, req.turns, i);
  }
}
