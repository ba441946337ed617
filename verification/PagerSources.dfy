/** The exact law of a session: which transcripts every source pages exactly under every budget,
    and that ordinary transcripts are among them. */
module PagerSources {
  import opened Prelude
  import opened HistoryModel
  import opened HistorySource
  import opened Entries
  import opened Cuts
  import opened PageSpec
  import opened Pager
  import opened PagerExact
  import opened Convert
  import ToolResults
  import EntryIds

  /** A source of the session whose own cursors it accepts. */
  predicate SourceFor(s: Session, src: Source) {
    src.total == |s.msgs| == |src.turns| && (src.revKnown || src.revision == 0)
  }

  /** The largest budgets a normalized request has. */
  const MAX_TURNS := 500
  const MAX_ENTRIES := 1000
  const MAX_BYTES := 8388608

  /** Some page over the window [lo, hi) covers message `i`. */
  ghost predicate Covers(s: Session, src: Source, lo: nat, hi: nat, i: int)
    requires hi <= |s.msgs| == |src.turns|
  {
    lo < hi && CutStart(WindowParts(s, src, lo, hi), lo, MAX_ENTRIES, MAX_BYTES) <= i < hi
  }

  /** Every run over every source of the session, under whatever budgets, is exact. */
  ghost predicate RunsExact(s: Session) {
    forall src, reqs, pages :: RunExact(s, src, reqs, pages)
  }

  ghost predicate RunExact(s: Session, src: Source, reqs: seq<Request>, pages: seq<Page>) {
    SourceFor(s, src) && Follows(s, src, reqs, pages) && pages[|pages| - 1].next.NoCursor? ==>
      PagesJoined(pages) == Flatten(FullParts(s, src))
  }

  /** Every window renders each message a page over it can cover as the full conversion does. */
  ghost predicate WindowsAlike(s: Session) {
    forall src, lo, hi, i :: WindowAlike(s, src, lo, hi, i)
  }

  ghost predicate WindowAlike(s: Session, src: Source, lo: nat, hi: nat, i: int) {
    SourceFor(s, src) && hi <= |s.msgs| && Covers(s, src, lo, hi, i) ==> MessageAlike(s, src, lo, hi, i)
  }

  /** Every request of the session returns. */
  ghost predicate SessionReturns(s: Session) {
    forall lo: nat, hi: nat, i :: hi <= |s.msgs| ==> RowsSplitAt(s, lo, hi, i)
  }

  // ---------------------------------------------------------------------------------
  // Cuts
  // ---------------------------------------------------------------------------------

  lemma {:induction false} GroupsInOrder(parts: seq<seq<Entry>>, base: nat, j: nat, k: nat)
    requires j <= k < |GroupsOf(parts, base)|
    ensures GroupsOf(parts, base)[j].index <= GroupsOf(parts, base)[k].index
  {
    hide BytesOf, GroupsOf;
    GroupsSnoc(parts, base);
    var prev := GroupsOf(parts[..|parts| - 1], base);
    if k < |prev| {
      GroupsInOrder(parts[..|parts| - 1], base, j, k);
    } else if j < |prev| {
      assert prev[j].index < base + |parts| - 1;
    }
  }

  /** Larger budgets never start a page later. */
  lemma {:induction false} LargerBudgetsCoverMore(parts: seq<seq<Entry>>, base: nat, e: int, b: int, maxE: int,
                                                  maxB: int)
    requires e <= maxE && b <= maxB
    ensures CutStart(parts, base, maxE, maxB) <= CutStart(parts, base, e, b)
  {
    hide GroupsOf, Cut, EntryCount, ByteCount;
    var gs := GroupsOf(parts, base);
    CutIsCut(gs, e, b);
    CutIsCut(gs, maxE, maxB);
    var k, m := Cut(gs, e, b), Cut(gs, maxE, maxB);
    if gs != [] {
      assert Fits(gs[k..], e, b) ==> Fits(gs[k..], maxE, maxB);
      assert m <= k;
      GroupsInOrder(parts, base, m, k);
    }
  }

  // ---------------------------------------------------------------------------------
  // Turns do not matter to cuts and to what is alike
  // ---------------------------------------------------------------------------------

  predicate SameIdentity(a: Source, b: Source) {
    SameVersion(a, b) && a.sessionID == b.sessionID && a.epoch == b.epoch && |a.turns| == |b.turns|
  }

  lemma {:induction false} EntryButTurn(a: Source, b: Source, id: string, i: nat, row: Row)
    requires SameIdentity(a, b) && i < |a.turns|
    ensures NewEntry(b, id, i, row) == NewEntry(a, id, i, row).(turn := b.turns[i])
  {
    hide RowRefs, CallsRefs, InlineRow;
    SameRowRefs(a, b, id, row, |ROW_FIELDS|);
    SameCallsRefs(a, b, id, row.toolCalls);
  }

  lemma {:induction false} EntriesButTurn(a: Source, b: Source, i: nat, rows: seq<Row>)
    requires SameIdentity(a, b) && i < |a.turns|
    ensures |EntriesOf(a, i, rows)| == |rows| == |EntriesOf(b, i, rows)|
    ensures forall k :: 0 <= k < |rows| ==> EntriesOf(b, i, rows)[k] == EntriesOf(a, i, rows)[k].(turn := b.turns[i])
  {
    hide NewEntry, EntryIds.Format;
    forall k | 0 <= k < |rows| ensures EntriesOf(b, i, rows)[k] == EntriesOf(a, i, rows)[k].(turn := b.turns[i]) {
      EntryButTurn(a, b, EntryIds.Format(a.sessionID, a.epoch, 'm', i, k), i, rows[k]);
    }
  }

  lemma {:induction false} BytesButTurn(es: seq<Entry>, fs: seq<Entry>)
    requires |es| == |fs| && forall k :: 0 <= k < |es| ==> fs[k].message == es[k].message
    ensures BytesOf(es) == BytesOf(fs)
  {
    if es != [] {
      BytesButTurn(es[..|es| - 1], fs[..|fs| - 1]);
    }
  }

  lemma {:induction false} AlikeButTurn(s: Session, a: Source, b: Source, lo: nat, hi: nat, i: int)
    requires SameIdentity(a, b) && hi <= |s.msgs| == |a.turns| && MessageAlike(s, a, lo, hi, i)
    ensures MessageAlike(s, b, lo, hi, i)
  {
    hide EntriesOf, WindowRows, FullRows;
    if lo <= i < hi {
      var w, f := WindowRows(s, lo, hi, i), FullRows(s, i);
      EntriesButTurn(a, b, i, w);
      EntriesButTurn(a, b, i, f);
      assert EntriesOf(b, i, w) == EntriesOf(b, i, f);
    }
  }

  /** The same messages in groups of the same size. */
  predicate SameShape(gs: seq<Group>, hs: seq<Group>) {
    && |gs| == |hs|
    && forall k :: 0 <= k < |gs| ==> SameGroup(gs[k], hs[k])
  }

  predicate SameGroup(g: Group, h: Group) {
    g.index == h.index && |g.entries| == |h.entries| && g.bytes == h.bytes
  }

  predicate SameSizes(p: seq<seq<Entry>>, q: seq<seq<Entry>>) {
    |p| == |q| && forall k :: 0 <= k < |p| ==> |p[k]| == |q[k]| && BytesOf(p[k]) == BytesOf(q[k])
  }

  lemma {:induction false} GroupsShape(p: seq<seq<Entry>>, q: seq<seq<Entry>>, base: nat)
    requires SameSizes(p, q)
    ensures SameShape(GroupsOf(p, base), GroupsOf(q, base))
  {
    hide GroupsOf, BytesOf;
    GroupsSnoc(p, base);
    GroupsSnoc(q, base);
    if p != [] {
      GroupsShape(p[..|p| - 1], q[..|q| - 1], base);
      assert |p[|p| - 1]| == |q[|q| - 1]|;
    }
  }

  lemma {:induction false} CountsShape(gs: seq<Group>, hs: seq<Group>)
    requires SameShape(gs, hs)
    ensures EntryCount(gs) == EntryCount(hs) && ByteCount(gs) == ByteCount(hs)
  {
    if gs != [] {
      assert SameGroup(gs[0], hs[0]);
      CountsShape(gs[1..], hs[1..]);
    }
  }

  lemma {:induction false} CutShape(gs: seq<Group>, hs: seq<Group>, e: int, b: int)
    requires SameShape(gs, hs)
    ensures Cut(gs, e, b) == Cut(hs, e, b)
  {
    hide Cut, EntryCount, ByteCount;
    CutIsCut(gs, e, b);
    CutIsCut(hs, e, b);
    forall k | 0 <= k <= |gs| ensures Fits(gs[k..], e, b) <==> Fits(hs[k..], e, b) {
      CountsShape(gs[k..], hs[k..]);
    }
    CutIsUnique(hs, e, b, Cut(gs, e, b), Cut(hs, e, b));
  }

  lemma {:induction false} CutStartShape(p: seq<seq<Entry>>, q: seq<seq<Entry>>, base: nat, e: int, b: int)
    requires SameSizes(p, q)
    ensures CutStart(p, base, e, b) == CutStart(q, base, e, b)
  {
    hide GroupsOf, Cut, SameSizes;
    GroupsShape(p, q, base);
    CutShape(GroupsOf(p, base), GroupsOf(q, base), e, b);
  }

  lemma {:induction false} CoversButTurn(s: Session, a: Source, b: Source, lo: nat, hi: nat, i: int)
    requires SameIdentity(a, b) && hi <= |s.msgs| == |a.turns|
    ensures Covers(s, a, lo, hi, i) == Covers(s, b, lo, hi, i)
  {
    hide WindowRows, EntriesOf, BytesOf, CutStart;
    if lo < hi {
      var p, q := WindowParts(s, a, lo, hi), WindowParts(s, b, lo, hi);
      forall k | 0 <= k < hi - lo ensures |p[k]| == |q[k]| && BytesOf(p[k]) == BytesOf(q[k]) {
        var rows := WindowRows(s, lo, hi, lo + k);
        EntriesButTurn(a, b, lo + k, rows);
        BytesButTurn(EntriesOf(a, lo + k, rows), EntriesOf(b, lo + k, rows));
      }
      CutStartShape(p, q, lo, MAX_ENTRIES, MAX_BYTES);
    }
  }

  // ---------------------------------------------------------------------------------
  // A source that serves a given window
  // ---------------------------------------------------------------------------------

  /** A span cap under which pages below the window end at its upper bound. */
  function Span(lo: nat, hi: nat): (int, int) -> int {
    (x: int, e: int) => if (e > hi && x < hi) || (e == hi && x < lo) then COLD_WINDOW_BYTES + 1 else 0
  }

  function Spanned(src: Source, lo: nat, hi: nat): Source {
    src.(turns := seq(|src.turns|, _ => 0), windowBytes := Some(Span(lo, hi)))
  }

  lemma {:induction false} SpanStops(span: (int, int) -> int, x: nat, target: nat, e: nat)
    requires x <= target < e && span(target, e) <= COLD_WINDOW_BYTES
    requires forall y :: x <= y < target ==> span(y, e) > COLD_WINDOW_BYTES
    ensures SpanStart(span, x, e) == target
    decreases target - x
  {
    if x < target {
      SpanStops(span, x + 1, target, e);
    }
  }

  lemma {:induction false} SpannedWindow(src: Source, lo: nat, hi: nat, e: nat, budget: int)
    requires lo < hi <= e <= |src.turns| && budget > 0
    ensures WindowStart(Spanned(src, lo, hi), e, budget) == if e == hi then lo else hi
  {
    SpanStops(Span(lo, hi), 0, if e == hi then lo else hi, e);
  }

  /** Paging such a source reaches the window: some page of a complete run ends at `hi`. */
  lemma {:induction false} ReachesWindow(s: Session, src: Source, lo: nat, hi: nat, reqs: seq<Request>,
                                         pages: seq<Page>,
                                         j: nat)
    returns (m: nat)
    requires lo < hi <= |s.msgs| == |src.turns| && src.total == |s.msgs| && (src.revKnown || src.revision == 0)
    requires Chain(s, Spanned(src, lo, hi), reqs, pages) && pages[|pages| - 1].next.NoCursor? && j < |pages|
    requires hi <= EndOf(Spanned(src, lo, hi), reqs, j) <= |s.msgs|
    requires pages[j] == PageEndingAt(s, Spanned(src, lo, hi), EndOf(Spanned(src, lo, hi), reqs, j), Normalize(reqs[j]))
    ensures j <= m < |pages| && EndOf(Spanned(src, lo, hi), reqs, m) == hi
    decreases |pages| - j
  {
    hide PageEndingAt, PageStart, WindowStart, Chain, PageEntries, Spanned, UpperBound;
    SpannedTotal(src, lo, hi);
    ChainLengths(s, Spanned(src, lo, hi), reqs, pages);
    var span := Spanned(src, lo, hi);
    var end := EndOf(span, reqs, j);
    if end == hi {
      m := j;
    } else {
      SpannedWindow(src, lo, hi, end, Normalize(reqs[j]).turns);
      PageStartInWindow(s, span, end, Normalize(reqs[j]));
      PageEndingFacts(s, span, end, Normalize(reqs[j]));
      ChainStep(s, span, reqs, pages, j, end);
      m := ReachesWindow(s, src, lo, hi, reqs, pages, j + 1);
    }
  }

  lemma {:induction false} SpannedTotal(src: Source, lo: nat, hi: nat)
    ensures var span := Spanned(src, lo, hi);
            && span.total == src.total && |span.turns| == |src.turns| && SameIdentity(src, span)
            && span.revKnown == src.revKnown && span.revision == src.revision
  {
  }

  // ---------------------------------------------------------------------------------
  // The law
  // ---------------------------------------------------------------------------------

  lemma {:induction false} AlikeWindowsMakeExactRuns(s: Session, src: Source, reqs: seq<Request>, pages: seq<Page>)
    requires WindowsAlike(s)
    ensures RunExact(s, src, reqs, pages)
  {
    hide WindowsAlike, PageAlike, Covers, MessageAlike, FullParts, PageEndingAt, Answers;
    if SourceFor(s, src) && Follows(s, src, reqs, pages) && pages[|pages| - 1].next.NoCursor? {
      ChainLengths(s, src, reqs, pages);
      forall m | 0 <= m < |pages| ensures RunAlikeAt(s, src, reqs, m) {
        var end := EndOf(src, reqs, m);
        if 0 < end <= |s.msgs| {
          CoveredAlike(s, src, end, Normalize(reqs[m]));
        }
      }
      RunExactIff(s, src, reqs, pages);
    }
  }

  lemma {:induction false} CoveredAlike(s: Session, src: Source, end: nat, req: Request)
    requires WindowsAlike(s) && SourceFor(s, src) && 0 < end <= |s.msgs|
    requires req.turns > 0 && req.entries <= MAX_ENTRIES && req.bytes <= MAX_BYTES
    ensures PageAlike(s, src, end, req)
  {
    hide WindowParts, CutStart, WindowStart, MessageAlike;
    var lo := WindowStart(src, end, req.turns);
    LargerBudgetsCoverMore(WindowParts(s, src, lo, end), lo, req.entries, req.bytes, MAX_ENTRIES, MAX_BYTES);
    forall i | PageStart(s, src, end, req) <= i < end ensures MessageAlike(s, src, lo, end, i) {
      assert WindowAlike(s, src, lo, end, i);
    }
  }

  lemma {:induction false} ExactRunsNeedAlikeWindows(s: Session, src: Source, lo: nat, hi: nat, i: int)
    requires RunsExact(s) && SessionReturns(s)
    ensures WindowAlike(s, src, lo, hi, i)
  {
    hide RunsExact, SessionReturns, MessageAlike, Covers, Spanned;
    if SourceFor(s, src) && hi <= |s.msgs| && Covers(s, src, lo, hi, i) {
      CoversWindow(s, src, lo, hi, i);
      SpannedTotal(src, lo, hi);
      var span := Spanned(src, lo, hi);
      CoversButTurn(s, src, span, lo, hi, i);
      SpannedAlike(s, src, lo, hi, i);
      AlikeButTurn(s, span, src, lo, hi, i);
    }
  }

  lemma {:induction false} CoversWindow(s: Session, src: Source, lo: nat, hi: nat, i: int)
    requires hi <= |s.msgs| == |src.turns| && Covers(s, src, lo, hi, i)
    ensures lo < hi && lo <= i < hi
  {
    hide WindowParts;
  }

  /** The complete run over the spanned source has a page over the window, which covers `i`. */
  lemma {:induction false} SpannedAlike(s: Session, src: Source, lo: nat, hi: nat, i: int)
    requires RunsExact(s) && SessionReturns(s) && SourceFor(s, src) && lo < hi <= |s.msgs|
    requires Covers(s, Spanned(src, lo, hi), lo, hi, i)
    ensures MessageAlike(s, Spanned(src, lo, hi), lo, hi, i)
  {
    hide RunsExact, SessionReturns, MessageAlike, Covers, Spanned, PageEndingAt, PageAlike, Chain, FullParts;
    SpannedTotal(src, lo, hi);
    var span, req := Spanned(src, lo, hi), Request(NoCursor, MAX_TURNS, MAX_ENTRIES, MAX_BYTES);
    AllRequestsReturn(s, span, req);
    var reqs, pages := CompleteRun(s, span, req);
    ChainLengths(s, span, reqs, pages);
    FirstPage(s, span, reqs, pages);
    var m := ReachesWindow(s, src, lo, hi, reqs, pages, 0);
    RunExactIff(s, span, reqs, pages);
    ExactRun(s, span, reqs, pages);
    assert RunAlikeAt(s, span, reqs, m);
    assert Normalize(reqs[m]) == reqs[m] && reqs[m].turns == MAX_TURNS;
    CoveredByPage(s, src, lo, hi, i, Normalize(reqs[m]));
  }

  lemma {:induction false} ExactRun(s: Session, src: Source, reqs: seq<Request>, pages: seq<Page>)
    requires RunsExact(s) && SourceFor(s, src) && Follows(s, src, reqs, pages) && pages[|pages| - 1].next.NoCursor?
    ensures PagesJoined(pages) == Flatten(FullParts(s, src))
  {
    hide Follows, FullParts, Flatten, PagesJoined;
    assert RunExact(s, src, reqs, pages);
  }

  lemma {:induction false} AllRequestsReturn(s: Session, src: Source, req: Request)
    requires SessionReturns(s) && src.total == |s.msgs| == |src.turns|
    ensures AllReturn(s, src, req)
  {
    hide RowsSplitAt, WindowStart;
    forall hi | 0 < hi <= src.total ensures PageReturns(s, src, hi, Normalize(req)) {
      var lo := WindowStart(src, hi, Normalize(req).turns);
      forall i | lo <= i < hi ensures RowsSplitAt(s, lo, hi, i) {
      }
    }
  }

  lemma {:induction false} CoveredByPage(s: Session, src: Source, lo: nat, hi: nat, i: int, req: Request)
    requires lo < hi <= |s.msgs| == |src.turns| && Covers(s, Spanned(src, lo, hi), lo, hi, i)
    requires req.turns > 0 && req.entries == MAX_ENTRIES && req.bytes == MAX_BYTES
    requires PageAlike(s, Spanned(src, lo, hi), hi, req)
    ensures MessageAlike(s, Spanned(src, lo, hi), lo, hi, i)
  {
    hide MessageAlike, WindowStart, WindowParts, CutStart, Spanned;
    SpannedTotal(src, lo, hi);
    SpannedWindow(src, lo, hi, hi, req.turns);
  }

  /** Every run over every source of a session, under whatever budgets, joins to the full
      conversion if and only if every window renders each message that fits the largest page over
      it as the full conversion does. */
  lemma {:induction false} AllRunsExactIff(s: Session)
    requires SessionReturns(s)
    ensures RunsExact(s) <==> WindowsAlike(s)
  {
    hide SessionReturns, RunExact, WindowAlike;
    if WindowsAlike(s) {
      forall src, reqs, pages ensures RunExact(s, src, reqs, pages) {
        AlikeWindowsMakeExactRuns(s, src, reqs, pages);
      }
    }
    if RunsExact(s) {
      forall src, lo, hi, i ensures WindowAlike(s, src, lo, hi, i) {
        ExactRunsNeedAlikeWindows(s, src, lo, hi, i);
      }
    }
  }

  // ---------------------------------------------------------------------------------
  // Ordinary transcripts
  // ---------------------------------------------------------------------------------

  /** A message the desktop writes itself: a user-role steer is displayed as synthetic, a pending
      readiness row is not user-role, and a user message is displayed only when it is authored. */
  predicate Ordinary(r: Rules, m: Message) {
    m.role.User? ==>
      && (Steer(r, m) ==> SyntheticDisplay(r, m))
      && !PendingReadiness(m)
      && (ReachesBody(r, m) ==> Authored(r, m))
  }

  /** A call has at most one result, and it follows the call. */
  ghost predicate OneResult(msgs: seq<Message>, i: nat, id: string) {
    forall p, q ::
      (0 <= p < |msgs| && 0 <= q < |msgs| && ToolResults.IsResult(msgs[p], id) && ToolResults.IsResult(msgs[q], id)) ==>
        p == q && p > i
  }

  ghost predicate OrdinarySession(s: Session) {
    && (forall i :: 0 <= i < |s.msgs| ==> Ordinary(s.rules, s.msgs[i]))
    && (forall i, k :: 0 <= i < |s.msgs| && 0 <= k < |s.msgs[i].toolCalls| && s.msgs[i].toolCalls[k].id != "" ==>
          OneResult(s.msgs, i, s.msgs[i].toolCalls[k].id))
  }

  lemma {:induction false} OrdinaryInStep(r: Rules, st: Planner, m: Message)
    requires Ordinary(r, m)
    ensures InStepAt(r, st, m)
  {
    hide InStepAt, ConsumeNext, ConvertNext;
    LockStepIff(r, m);
  }

  /** Ordinary transcripts are safe to cut, so all their pages are exact. */
  lemma {:induction false} OrdinaryIsCutSafe(s: Session)
    requires OrdinarySession(s)
    ensures CutSafe(s)
  {
    hide InStepAt, FullState, ShowsBody, Ordinary, ToolResults.Settled, OneResult;
    forall i | 0 <= i < |s.msgs| - 1 ensures InStepAt(s.rules, FullState(s, i), s.msgs[i]) {
      OrdinaryInStep(s.rules, FullState(s, i), s.msgs[i]);
    }
    forall i | 0 <= i < |s.msgs| ensures TimeSafe(s, i) {
      OrdinaryTime(s, i);
    }
    forall i, k | 0 <= i < |s.msgs| && 0 <= k < |s.msgs[i].toolCalls| && s.msgs[i].toolCalls[k].id != ""
      ensures ToolResults.Settled(s.msgs, i, s.msgs[i].toolCalls[k].id)
    {
      SettledOnce(s.msgs, i, s.msgs[i].toolCalls[k].id);
    }
  }

  lemma {:induction false} OrdinaryTime(s: Session, i: nat)
    requires i < |s.msgs| && Ordinary(s.rules, s.msgs[i])
    ensures TimeSafe(s, i)
  {
    hide FullState, FullLookups, HasVisibleContent, BodyRow;
  }

  lemma {:induction false} SettledOnce(msgs: seq<Message>, i: nat, id: string)
    requires i < |msgs| && OneResult(msgs, i, id)
    ensures ToolResults.Settled(msgs, i, id)
  {
    ToolResults.OneResultSettles(msgs, i, id);
  }
}
