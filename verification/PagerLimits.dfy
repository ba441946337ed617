/** Sessions whose pages, followed to the end, do not join to the full conversion: one for each
    condition of the pager's law. */
module PagerLimits {
  import opened Prelude
  import opened HistoryModel
  import opened Convert
  import opened HistorySource
  import opened Entries
  import opened Cuts
  import opened PageSpec
  import opened Pager
  import opened PagerExact
  import opened PlainSessions
  import Chunks
  import ToolResults
  import LiveSource
  import Times

  /** A complete run whose first page renders the newest message differently. */
  lemma {:induction false} NewestDiffers(s: Session, req: Request) returns (reqs: seq<Request>, pages: seq<Page>)
    requires s.msgs != [] && req.cursor.NoCursor? && BriefSession(s)
    requires var n := |s.msgs|;
             !MessageAlike(s, SourceOf(s), WindowStart(SourceOf(s), n, Normalize(req).turns), n, n - 1)
    ensures Follows(s, SourceOf(s), reqs, pages) && pages[|pages| - 1].next.NoCursor? && reqs[0] == req
    ensures PagesJoined(pages) != Flatten(FullParts(s, SourceOf(s)))
  {
    hide SourceOf, MessageAlike, WindowStart, PageStart, Normalize;
    SourceServes(s);
    var src, n := SourceOf(s), |s.msgs|;
    SnapshotIdentity(s);
    BriefReturns(s, src, req);
    reqs, pages := CompleteRun(s, src, req);
    RunExactIff(s, src, reqs, pages);
    assert EndOf(src, reqs, 0) == n;
    assert !PageAlike(s, src, n, Normalize(req));
    assert !RunAlikeAt(s, src, reqs, 0);
  }

  lemma {:induction false} NoPlannersSafe(s: Session)
    requires s.planners == []
    ensures PlannerSafe(s)
  {
    hide InStepAt, FullState;
    assert QueuesOf(s.rules, []) == map[];
    forall i | 0 <= i < |s.msgs| - 1 ensures InStepAt(s.rules, FullState(s, i), s.msgs[i]) {
      NoDisplaysInStep(s, i);
    }
  }

  lemma {:induction false} NoTimesSafe(s: Session)
    requires s.times.Unavailable?
    ensures forall i :: 0 <= i < |s.msgs| ==> TimeSafe(s, i)
  {
    hide ShowsBody, FullState;
  }

  // ---------------------------------------------------------------------------------
  // Planner state
  // ---------------------------------------------------------------------------------

  /** A steer whose text has an interrupted planner display, then a turn without words: the
      state-only pass consumes the display and swallows that turn, the full conversion shows it. */
  const STEERED := Session(PLAIN, [Text(User, "x"), Text(User, "!go"), Text(User, ""), Text(Assistant, "done")],
                           Times.Unavailable, [PlannerTurn("!go", [CANCELLED_ROW])], map[])

  lemma {:induction false} StartState() returns (start: Planner)
    ensures start == Initial(PLAIN, STEERED.planners) && !start.suppress
    ensures start.queues == map["!go" := STEERED.planners]
  {
    start := Initial(PLAIN, STEERED.planners);
    assert STEERED.planners[..0] == [];
    assert Kept(STEERED.planners[0], PLAIN);
    assert QueuesOf(PLAIN, STEERED.planners[..0]) == map[];
    assert [] + [STEERED.planners[0]] == STEERED.planners;
  }

  lemma {:induction false} Texts()
    ensures HasPrefix("!go", "!") && !HasPrefix("x", "!") && !HasPrefix("", "!") && !HasPrefix("hello", "!")
  {
    assert "!go"[..1] == "!";
    assert "x"[..1][0] == 'x' && "hello"[..1][0] == 'h';
  }

  /** What the steered session does to its planner state, message by message. */
  lemma {:induction false} SteeredStates(start: Planner)
    requires !start.suppress && start.queues == map["!go" := STEERED.planners]
    ensures var m := STEERED.msgs;
            && ConvertNext(PLAIN, start, m[0]) == start && ConsumeNext(PLAIN, start, m[0]) == start
            && ConvertNext(PLAIN, start, m[1]) == start && ConsumeNext(PLAIN, start, m[1]).suppress
            && ConvertNext(PLAIN, start, m[2]) == start && !Authored(PLAIN, m[2])
  {
    Texts();
    assert STEERED.planners[0].messages[0].code == CANCELLED_CODE;
  }

  lemma {:induction false} NextState(st: Planner, msgs: seq<Message>, k: nat)
    requires k < |msgs|
    ensures ConvertAll(PLAIN, st, msgs[..k + 1]) == ConvertNext(PLAIN, ConvertAll(PLAIN, st, msgs[..k]), msgs[k])
    ensures ConsumeAll(PLAIN, st, msgs[..k + 1]) == ConsumeNext(PLAIN, ConsumeAll(PLAIN, st, msgs[..k]), msgs[k])
    ensures ConvertAll(PLAIN, st, msgs[..0]) == st == ConsumeAll(PLAIN, st, msgs[..0])
  {
    hide ConvertNext, ConsumeNext;
    assert msgs[..k + 1][..k] == msgs[..k];
  }

  lemma {:induction false} SteeredFull()
    ensures FullState(STEERED, 3) == Initial(PLAIN, STEERED.planners) && |FullRows(STEERED, 3)| == 1
  {
    hide ConvertAll, ConsumeAll, ConvertNext, ConsumeNext, Authored, SuppressesCanonical;
    var start := StartState();
    var m := STEERED.msgs;
    assert Displayed(STEERED) == m;
    SteeredStates(start);
    NextState(start, m, 0);
    NextState(start, m, 1);
    NextState(start, m, 2);
    assert FullState(STEERED, 3) == start;
  }

  lemma {:induction false} SteeredWindow()
    ensures WindowRows(STEERED, 2, 4, 3) == []
  {
    hide ConvertAll, ConsumeAll, ConsumeNext, ConvertNext, ConvertStep, WindowLookups, Authored, SuppressesCanonical;
    var start := StartState();
    var m := STEERED.msgs;
    SteeredStates(start);
    NextState(start, m, 0);
    NextState(start, m, 1);
    var primed := PrimedState(STEERED, 2);
    assert "!go" in start.queues;
    assert primed.suppress;
    var w := WindowMessages(STEERED, 2, 4);
    assert w == m[2..4] && w[0] == m[2] && w[1] == m[3];
    NextState(primed, w, 0);
    SwallowedRest(primed, m[2], m[3], WindowLookups(STEERED, 2, 4));
  }

  /** Under suppression neither an unauthored user message nor an answer is shown. */
  lemma {:induction false} SwallowedRest(st: Planner, user: Message, answer: Message, lk: Lookups)
    requires st.suppress && user == STEERED.msgs[2] && answer == STEERED.msgs[3] && !Authored(PLAIN, user)
    ensures ConvertNext(PLAIN, st, user) == st && ConvertStep(PLAIN, st, 3, answer, lk).rows == []
  {
    hide Authored;
  }

  lemma {:induction false} SteeredTurns()
    ensures SourceOf(STEERED).turns == [1, 1, 2, 2]
    ensures WindowStart(SourceOf(STEERED), 4, 1) == 2
  {
    hide VisibleUser, LiveSource.VisibleTurns, TurnStart;
    var m := STEERED.msgs;
    SteeredVisible();
    FourTurns(m);
    assert SourceOf(STEERED).turns == [1, 1, 2, 2];
    SearchTwo();
  }

  lemma {:induction false} SteeredVisible()
    ensures var m := STEERED.msgs; One(m[0]) == 1 && One(m[1]) == 0 && One(m[2]) == 1 && One(m[3]) == 0
  {
    Texts();
  }

  function One(m: Message): nat {
    if VisibleUser(PLAIN, m) then 1 else 0
  }

  lemma {:induction false} FourTurns(m: seq<Message>)
    requires |m| == 4
    ensures LiveSource.VisibleTurns(PLAIN, m, 0, 1) == One(m[0])
    ensures LiveSource.VisibleTurns(PLAIN, m, 0, 2) == One(m[0]) + One(m[1])
    ensures LiveSource.VisibleTurns(PLAIN, m, 0, 3) == One(m[0]) + One(m[1]) + One(m[2])
    ensures LiveSource.VisibleTurns(PLAIN, m, 0, 4) == One(m[0]) + One(m[1]) + One(m[2]) + One(m[3])
  {
    hide VisibleUser;
    assert LiveSource.VisibleTurns(PLAIN, m, 0, 0) == 0;
    assert LiveSource.VisibleTurns(PLAIN, m, 0, 1) == One(m[0]);
    assert LiveSource.VisibleTurns(PLAIN, m, 0, 2) == LiveSource.VisibleTurns(PLAIN, m, 0, 1) + One(m[1]);
    assert LiveSource.VisibleTurns(PLAIN, m, 0, 3) == LiveSource.VisibleTurns(PLAIN, m, 0, 2) + One(m[2]);
  }

  lemma {:induction false} SearchTwo()
    ensures TurnStart([1, 1, 2, 2], 4, 1) == 2
  {
    TurnStartExact([1, 1, 2, 2], 4, 1, 1);
    TurnStartExact([1, 1, 2, 2], 4, 1, 2);
  }

  /** One turn per page: the run of pages never shows the answer, the full conversion does. */
  lemma {:induction false} SteerHidesAnswer() returns (reqs: seq<Request>, pages: seq<Page>)
    ensures !PlannerSafe(STEERED) && ResultsSettled(STEERED) && forall i :: 0 <= i < 4 ==> TimeSafe(STEERED, i)
    ensures Follows(STEERED, SourceOf(STEERED), reqs, pages) && pages[|pages| - 1].next.NoCursor? && reqs[0].turns == 1
    ensures PagesJoined(pages) != Flatten(FullParts(STEERED, SourceOf(STEERED)))
  {
    hide WindowRows, FullRows, SourceOf, TimeSafe, PlannerSafe, ResultsSettled, EntriesOf, WindowStart;
    var req := Request(NoCursor, 1, 120, 524288);
    assert Normalize(req) == req;
    assert |STEERED.msgs| == 4;
    SourceServes(STEERED);
    SteeredTurns();
    SteeredWindow();
    SteeredFull();
    EntriesCount(SourceOf(STEERED), 3, FullRows(STEERED, 3));
    EntriesCount(SourceOf(STEERED), 3, WindowRows(STEERED, 2, 4, 3));
    SteeredIsBrief();
    reqs, pages := NewestDiffers(STEERED, req);
    SteeredConditions();
  }

  lemma {:induction false} SteeredIsBrief()
    ensures BriefSession(STEERED)
  {
    CancelledIsBrief();
  }

  lemma {:induction false} SteeredConditions()
    ensures !PlannerSafe(STEERED) && ResultsSettled(STEERED) && forall i :: 0 <= i < 4 ==> TimeSafe(STEERED, i)
  {
    hide InStepAt, FullState, TimeSafe;
    SteerIsOutOfStep();
    NoTimesSafe(STEERED);
  }

  lemma {:induction false} SteerIsOutOfStep()
    ensures !InStepAt(PLAIN, FullState(STEERED, 1), STEERED.msgs[1])
  {
    hide ConvertAll, ConsumeAll, SuppressesCanonical;
    var start := StartState();
    var m := STEERED.msgs;
    assert Displayed(STEERED) == m;
    SteeredStates(start);
    NextState(start, m, 0);
    Texts();
    assert FullState(STEERED, 1) == start;
  }

  // ---------------------------------------------------------------------------------
  // Times
  // ---------------------------------------------------------------------------------

  /** A displayed user message without text behind an authored one: a window of its own asks
      for no times, the whole transcript does. */
  const WORDLESS := Session(PLAIN, [Text(User, "hello"), Text(User, "")], Times.Times([Some(5), Some(7)]), [], map[])

  lemma {:induction false} WordlessTimes()
    ensures WindowMessages(WORDLESS, 1, 2)[0].createdAt == 0 && Displayed(WORDLESS)[1].createdAt == 7
    ensures forall m ::
              m in [WindowMessages(WORDLESS, 1, 2)[0], Displayed(WORDLESS)[1]] ==> SameButTime(WORDLESS.msgs[1], m)
    ensures && Times.NeedsTimes(PLAIN, WORDLESS.msgs) && Times.Patched(WORDLESS.msgs, WORDLESS.times, 1)
            && !Authored(PLAIN, WORDLESS.msgs[1])
  {
    var m, times := WORDLESS.msgs, WORDLESS.times;
    Texts();
    assert AuthoredText(PLAIN, "hello");
    assert Times.Untimed(PLAIN, m[0]) && !Times.Untimed(PLAIN, m[1]);
    assert Times.Users(m, 0) == 0 && Times.Users(m, 1) == 1;
    assert Times.TimedAt(m, times, 0, 1).createdAt == 7;
    assert m[1..2] == [m[1]];
    assert !Times.NeedsTimes(PLAIN, m[1..2]);
    WindowKeepsCalls(WORDLESS, 1, 2, 1);
    DisplayedAt(WORDLESS, 1);
  }

  lemma {:induction false} PlainRow(st: Planner, index: int, m: Message, lk: Lookups)
    requires SameButTime(WORDLESS.msgs[1], m) && st == Planner(map[], false)
    ensures var rows := ConvertStep(PLAIN, st, index, m, lk).rows; |rows| == 1 && rows[0].createdAt == m.createdAt
    ensures ShowsBody(PLAIN, st, index, m, lk)
  {
    Texts();
    assert ReceiptRows([]) == [];
  }

  lemma {:induction false} WordlessStates()
    ensures FullState(WORDLESS, 1) == Planner(map[], false) == PrimedState(WORDLESS, 1) ==
              WindowState(WORDLESS, 1, 2, 1)
  {
    assert QueuesOf(PLAIN, []) == map[];
    NoDisplaysNoState(PLAIN, Displayed(WORDLESS)[..1]);
    assert WindowMessages(WORDLESS, 1, 2)[..0] == [];
  }

  lemma {:induction false} WordlessTurns()
    ensures SourceOf(WORDLESS).turns == [1, 2] && WindowStart(SourceOf(WORDLESS), 2, 1) == 1
  {
    var m := WORDLESS.msgs;
    Texts();
    assert VisibleUser(PLAIN, m[0]) && VisibleUser(PLAIN, m[1]);
    assert LiveSource.VisibleTurns(PLAIN, m, 0, 1) == 1;
    assert LiveSource.VisibleTurns(PLAIN, m, 0, 2) == 2;
    TurnStartExact([1, 2], 2, 1, 0);
  }

  lemma {:induction false} WordlessRows()
    ensures |WindowRows(WORDLESS, 1, 2, 1)| == 1 == |FullRows(WORDLESS, 1)|
    ensures WindowRows(WORDLESS, 1, 2, 1)[0].createdAt == 0 && FullRows(WORDLESS, 1)[0].createdAt == 7
    ensures !TimeSafe(WORDLESS, 1)
  {
    hide ConvertStep, FullState, PrimedState, WindowState, WindowLookups, FullLookups, ShowsBody, WindowMessages,
      Displayed;
    WordlessTimes();
    WordlessStates();
    PlainRow(FullState(WORDLESS, 1), 1, Displayed(WORDLESS)[1], FullLookups(WORDLESS));
    PlainRow(FullState(WORDLESS, 1), 1, WORDLESS.msgs[1], FullLookups(WORDLESS));
    PlainRow(WindowState(WORDLESS, 1, 2, 1), 1, WindowMessages(WORDLESS, 1, 2)[0], WindowLookups(WORDLESS, 1, 2));
  }

  lemma {:induction false} TimesDiffer(src: Source, w: seq<Row>, f: seq<Row>)
    requires 1 < |src.turns| && |w| == 1 == |f| && w[0].createdAt != f[0].createdAt
    ensures EntriesOf(src, 1, w) != EntriesOf(src, 1, f)
  {
    assert EntriesOf(src, 1, w)[0].message.createdAt == w[0].createdAt;
    assert EntriesOf(src, 1, f)[0].message.createdAt == f[0].createdAt;
  }

  /** One turn per page: the wordless message shows no time, the full conversion gives it one. */
  lemma {:induction false} WordlessKeepsNoTime() returns (reqs: seq<Request>, pages: seq<Page>)
    ensures PlannerSafe(WORDLESS) && ResultsSettled(WORDLESS) && !TimeSafe(WORDLESS, 1)
    ensures && Follows(WORDLESS, SourceOf(WORDLESS), reqs, pages) && pages[|pages| - 1].next.NoCursor?
            && reqs[0].turns == 1
    ensures PagesJoined(pages) != Flatten(FullParts(WORDLESS, SourceOf(WORDLESS)))
  {
    hide WindowRows, FullRows, SourceOf, TimeSafe, PlannerSafe, EntriesOf, WindowStart;
    var req := Request(NoCursor, 1, 120, 524288);
    assert Normalize(req) == req;
    SourceServes(WORDLESS);
    WordlessTurns();
    WordlessRows();
    var src := SourceOf(WORDLESS);
    TimesDiffer(src, WindowRows(WORDLESS, 1, 2, 1), FullRows(WORDLESS, 1));
    assert BriefSession(WORDLESS);
    reqs, pages := NewestDiffers(WORDLESS, req);
    NoPlannersSafe(WORDLESS);
  }

  // ---------------------------------------------------------------------------------
  // Tool results
  // ---------------------------------------------------------------------------------

  const ONCE := ToolCall("c", "read", "", "", "", None, "", 0, 0)

  function Answer(content: string): Message {
    Text(Tool, content).(toolCallID := "c")
  }

  /** A call answered twice: a window that ends before the second result resolves the call by
      the first one, the whole-transcript map keeps the last. */
  const TWICE := Session(PLAIN, [Text(Assistant, "").(toolCalls := [ONCE]), Answer("one"), Answer("two")],
                         Times.Unavailable, [], map[])

  lemma {:induction false} TwiceResults(hi: nat)
    requires 0 < hi <= 2
    ensures ToolResults.WindowResult(TWICE.msgs, 0, hi, "c") == Some(TWICE.msgs[1])
    ensures ToolResults.FullResult(TWICE.msgs, "c") == Some(TWICE.msgs[2])
    ensures !ToolResults.Settled(TWICE.msgs, 0, "c")
  {
    var m := TWICE.msgs;
    assert ToolResults.IsResult(m[1], "c") && ToolResults.IsResult(m[2], "c") && !ToolResults.IsResult(m[0], "c");
    ToolResults.LastIs(m, 0, 3, "c", 2);
    if hi == 1 {
      assert ToolResults.Last(m, 0, 1, "c") == -1;
      ToolResults.FirstIs(m, 1, 1, "c");
    } else {
      ToolResults.LastIs(m, 0, 2, "c", 1);
    }
  }

  lemma {:induction false} TwiceTexts(hi: nat)
    requires 0 < hi <= 2
    ensures && ResultText(WindowLookups(TWICE, 0, hi).results, "c") == "one"
            && ResultText(FullLookups(TWICE).results, "c") == "two"
  {
    hide ToolResults.WindowResult, ToolResults.FullResult;
    var m := TWICE.msgs;
    TwiceResults(hi);
    assert m[0..hi][0] == m[0] && m[0].toolCalls[0].id == "c";
    assert "c" in ToolResults.CallIds(m[0..hi]);
    ResultsOfDisplayed(TWICE);
    ToolResults.MapAnswersLast(m, 0, 3, "c");
    assert m[0..3] == m;
    FullIsLast(m);
  }

  lemma {:induction false} FullIsLast(m: seq<Message>)
    ensures ToolResults.FullResult(m, "c") == ToolResults.At(m, ToolResults.Last(m, 0, |m|, "c"))
  {
  }

  lemma {:induction false} CallRow(lk: Lookups)
    ensures var rows := ConvertStep(PLAIN, Planner(map[], false), 0, TWICE.msgs[0], lk).rows;
            |rows| == 1 && |rows[0].toolCalls| == 1 && rows[0].toolCalls[0].summary == ResultText(lk.results, "c")
  {
    assert ReceiptRows([]) == [];
    assert RowCalls(PLAIN, [ONCE], lk)[0].summary == ResultText(lk.results, "c");
  }

  lemma {:induction false} TwiceStates(hi: nat)
    requires 0 < hi <= 3
    ensures FullState(TWICE, 0) == Planner(map[], false) == WindowState(TWICE, 0, hi, 0)
    ensures WindowMessages(TWICE, 0, hi)[0] == TWICE.msgs[0] == Displayed(TWICE)[0]
  {
    assert QueuesOf(PLAIN, []) == map[];
    assert WindowMessages(TWICE, 0, hi)[..0] == [] && Displayed(TWICE)[..0] == [];
    assert TWICE.msgs[0..hi][0] == TWICE.msgs[0];
  }

  /** A page that ends before the second result shows the first. */
  lemma {:induction false} TwiceDiffers(hi: nat)
    requires 0 < hi <= 2
    ensures !MessageAlike(TWICE, SourceOf(TWICE), 0, hi, 0)
  {
    hide ConvertStep, FullState, WindowState, WindowLookups, FullLookups, WindowMessages, Displayed, SourceOf,
      EntriesOf, ResultText;
    SourceServes(TWICE);
    var src := SourceOf(TWICE);
    TwiceStates(hi);
    TwiceTexts(hi);
    CallRow(WindowLookups(TWICE, 0, hi));
    CallRow(FullLookups(TWICE));
    var w, f := WindowRows(TWICE, 0, hi, 0), FullRows(TWICE, 0);
    SummariesDiffer(src, w, f);
  }

  lemma {:induction false} SummariesDiffer(src: Source, w: seq<Row>, f: seq<Row>)
    requires 0 < |src.turns| && |w| == 1 == |f| && |w[0].toolCalls| == 1 == |f[0].toolCalls|
    requires w[0].toolCalls[0].summary == "one" && f[0].toolCalls[0].summary == "two"
    ensures EntriesOf(src, 0, w) != EntriesOf(src, 0, f)
  {
    assert Inline("one") == "one" && Inline("two") == "two" && "one"[0] != "two"[0];
    assert EntriesOf(src, 0, w)[0].message.toolCalls[0].summary == "one";
    assert EntriesOf(src, 0, f)[0].message.toolCalls[0].summary == "two";
  }

  /** With room for one entry a page covers only the newest message, when that renders. */
  lemma {:induction false} OneEntryPage(s: Session, src: Source, hi: nat, req: Request)
    requires 0 < hi <= |s.msgs| == |src.turns| && req.turns > 0 && req.entries == 1
    requires WindowRows(s, WindowStart(src, hi, req.turns), hi, hi - 1) != []
    ensures PageStart(s, src, hi, req) == hi - 1
  {
    hide WindowRows, WindowStart, CutStart, CutEntries, GroupsOf, IsCut, AllEntries, Flatten;
    var lo := WindowStart(src, hi, req.turns);
    var parts := WindowParts(s, src, lo, hi);
    var gs := GroupsOf(parts, lo);
    assert parts[|parts| - 1] == EntriesOf(src, hi - 1, WindowRows(s, lo, hi, hi - 1));
    assert |parts[|parts| - 1]| > 0;
    GroupsSnoc(parts, lo);
    GroupsHoldEntries(parts, lo);
    var k := PageFillsBudgets(parts, lo, req.entries, req.bytes);
    NewestOnly(gs, req.bytes, k);
  }

  lemma {:induction false} GroupsHoldEntries(parts: seq<seq<Entry>>, base: nat)
    ensures forall k :: 0 <= k < |GroupsOf(parts, base)| ==> GroupsOf(parts, base)[k].entries != []
  {
    if parts != [] {
      GroupsHoldEntries(parts[..|parts| - 1], base);
    }
  }

  lemma {:induction false} NewestOnly(gs: seq<Group>, maxBytes: int, k: nat)
    requires gs != [] && IsCut(gs, 1, maxBytes, k) && forall j :: 0 <= j < |gs| ==> gs[j].entries != []
    ensures k == |gs| - 1
  {
    hide EntryCount, ByteCount;
    if k < |gs| - 1 {
      CountsHead(gs[k..], 1, maxBytes);
      assert gs[k..][1..] == gs[k + 1..];
      CountsHead(gs[k + 1..], 1, maxBytes);
    }
  }

  lemma {:induction false} LaterEnds(s: Session, src: Source, reqs: seq<Request>, pages: seq<Page>, j: nat)
    requires src.total == |s.msgs| == |src.turns| && Follows(s, src, reqs, pages) && src.total > 0
    requires (src.revKnown || src.revision == 0) && j < |pages|
    ensures var end := EndOf(src, reqs, j);
            && 0 < end <= src.total && pages[j] == PageEndingAt(s, src, end, Normalize(reqs[j]))
            && (j > 0 ==> end <= PageStart(s, src, src.total, Normalize(reqs[0])))
  {
    hide PageEndingAt, PageStart, UpperBound, Answers;
    if j == 0 {
      FirstPage(s, src, reqs, pages);
      FirstEnd(src, reqs);
    } else {
      LaterEnds(s, src, reqs, pages, j - 1);
      ChainStep(s, src, reqs, pages, j - 1, EndOf(src, reqs, j - 1));
      FirstEnd(src, reqs);
    }
  }

  lemma {:induction false} FirstEnd(src: Source, reqs: seq<Request>)
    requires reqs != [] && reqs[0].cursor.NoCursor?
    ensures EndOf(src, reqs, 0) == src.total
  {
  }

  lemma {:induction false} TwiceFirstPage(req: Request)
    requires req.turns > 0 && req.entries == 1
    ensures && |SourceOf(TWICE).turns| == 3
            && (forall hi, budget :: 0 < hi <= 3 && budget > 0 ==> WindowStart(SourceOf(TWICE), hi, budget) == 0)
    ensures PageStart(TWICE, SourceOf(TWICE), 3, req) == 2
  {
    hide WindowRows;
    SourceServes(TWICE);
    var src, m := SourceOf(TWICE), TWICE.msgs;
    assert LiveSource.VisibleTurns(PLAIN, m, 0, 1) == 0;
    assert LiveSource.VisibleTurns(PLAIN, m, 0, 2) == 0;
    assert LiveSource.VisibleTurns(PLAIN, m, 0, 3) == 0;
    assert src.turns == [0, 0, 0];
    ToolRowShows();
    OneEntryPage(TWICE, src, 3, req);
  }

  lemma {:induction false} ToolRowShows()
    ensures WindowRows(TWICE, 0, 3, 2) != []
  {
    hide ConvertAll;
    assert QueuesOf(PLAIN, []) == map[];
    NoDisplaysNoState(PLAIN, WindowMessages(TWICE, 0, 3)[..2]);
    assert TWICE.msgs[0..3] == TWICE.msgs;
  }

  /** A complete run whose oldest page renders the oldest message differently. */
  lemma {:induction false} OldestDiffers(s: Session, src: Source, reqs: seq<Request>, pages: seq<Page>)
    requires src.total == |s.msgs| == |src.turns| && src.total > 0 && (src.revKnown || src.revision == 0)
    requires Follows(s, src, reqs, pages) && pages[|pages| - 1].next.NoCursor?
    requires 0 < PageStart(s, src, src.total, Normalize(reqs[0]))
    requires forall end: nat ::
               0 < end <= PageStart(s, src, src.total, Normalize(reqs[0])) ==> !MessageAlike(s, src, 0, end, 0)
    requires forall end, budget :: 0 < end <= src.total && budget > 0 ==> WindowStart(src, end, budget) == 0
    ensures PagesJoined(pages) != Flatten(FullParts(s, src))
  {
    hide PageStart, PageEndingAt, MessageAlike, WindowStart, SlicePage, FullParts, PageAlike, Normalize;
    FirstPage(s, src, reqs, pages);
    PageEndingFacts(s, src, src.total, Normalize(reqs[0]));
    var last := |pages| - 1;
    assert last > 0;
    LaterEnds(s, src, reqs, pages, last);
    var end := EndOf(src, reqs, last);
    PageEndingFacts(s, src, end, Normalize(reqs[last]));
    OldestUnlike(s, src, end, Normalize(reqs[last]));
    RunExactIff(s, src, reqs, pages);
    assert !RunAlikeAt(s, src, reqs, last);
  }

  lemma {:induction false} OldestUnlike(s: Session, src: Source, end: nat, req: Request)
    requires 0 < end <= |s.msgs| == |src.turns| && req.turns > 0 && PageStart(s, src, end, req) == 0
    requires WindowStart(src, end, req.turns) == 0 && !MessageAlike(s, src, 0, end, 0)
    ensures !PageAlike(s, src, end, req)
  {
    hide PageStart, WindowStart, MessageAlike;
  }

  lemma {:induction false} TwiceIsBrief()
    ensures BriefSession(TWICE)
  {
  }

  lemma {:induction false} TwiceConditions()
    ensures PlannerSafe(TWICE) && !ResultsSettled(TWICE) && forall i :: 0 <= i < 3 ==> TimeSafe(TWICE, i)
  {
    hide ToolResults.Settled, PlannerSafe, TimeSafe;
    NoPlannersSafe(TWICE);
    NoTimesSafe(TWICE);
    TwiceResults(1);
    assert TWICE.msgs[0].toolCalls[0].id == "c";
  }

  /** One entry per page: the run shows the first result, the full conversion the second. */
  lemma {:induction false} SecondResultIsMissed() returns (reqs: seq<Request>, pages: seq<Page>)
    ensures PlannerSafe(TWICE) && !ResultsSettled(TWICE) && forall i :: 0 <= i < 3 ==> TimeSafe(TWICE, i)
    ensures Follows(TWICE, SourceOf(TWICE), reqs, pages) && pages[|pages| - 1].next.NoCursor? && reqs[0].entries == 1
    ensures PagesJoined(pages) != Flatten(FullParts(TWICE, SourceOf(TWICE)))
  {
    hide SourceOf, PageStart, MessageAlike, WindowStart, ResultsSettled, FullParts, PlannerSafe, TimeSafe, Chain,
      SlicePage, TWICE;
    var req := Request(NoCursor, 12, 1, 524288);
    assert Normalize(req) == req;
    SourceServes(TWICE);
    SnapshotIdentity(TWICE);
    TwiceFirstPage(req);
    forall end: nat | 0 < end <= 2 ensures !MessageAlike(TWICE, SourceOf(TWICE), 0, end, 0) {
      TwiceDiffers(end);
    }
    TwiceIsBrief();
    BriefReturns(TWICE, SourceOf(TWICE), req);
    reqs, pages := CompleteRun(TWICE, SourceOf(TWICE), req);
    OldestDiffers(TWICE, SourceOf(TWICE), reqs, pages);
    TwiceConditions();
  }

  // ---------------------------------------------------------------------------------
  // Requests that do not return
  // ---------------------------------------------------------------------------------

  /** One answer of nothing but continuation bytes. */
  function Broken(text: string): Session {
    Session(PLAIN, [Text(Assistant, text)], Times.Unavailable, [], map[])
  }

  lemma {:induction false} BrokenRow(text: string)
    ensures |WindowRows(Broken(text), 0, 1, 0)| == 1 && WindowRows(Broken(text), 0, 1, 0)[0].content == text
  {
    var s := Broken(text);
    assert QueuesOf(PLAIN, []) == map[];
    assert WindowMessages(s, 0, 1)[..0] == [] && s.msgs[0..1] == s.msgs;
    assert ReceiptRows([]) == [];
  }

  /** No request for the latest page of such a session returns, whatever its budgets. */
  lemma {:induction false} BrokenPageNeverReturns(text: string, req: Request)
    requires |text| > Chunks.CHUNK_BYTES && forall j :: 0 <= j < |text| ==> text[j] == '\U{80}'
    requires req.cursor.NoCursor?
    ensures |SourceOf(Broken(text)).turns| == 1 && !SliceReturns(Broken(text), SourceOf(Broken(text)), Normalize(req))
  {
    hide WindowRows, Chunks.Splits, Chunks.LoopStops, LiveSource.VisibleTurns, WindowStart;
    var s := Broken(text);
    var lo := WindowStart(SourceOf(s), 1, Normalize(req).turns);
    SourceServes(s);
    Chunks.ContinuationRunNeverStops(text);
    Chunks.ChunkLoopStopsIff(text);
    BrokenRow(text);
    var row := WindowRows(s, 0, 1, 0)[0];
    assert ROW_FIELDS[0] == Content && RowField(row, ROW_FIELDS[0]) == text;
    assert !RowSplits(row);
    assert lo == 0 && !RowsSplitAt(s, lo, 1, 0);
    assert UpperBound(SourceOf(s), Normalize(req)) == 1;
  }
}
