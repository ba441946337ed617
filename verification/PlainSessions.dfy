/** Small sessions whose texts stand for themselves, and that every request about them returns. */
module PlainSessions {
  import opened Prelude
  import opened HistoryModel
  import opened Convert
  import opened HistorySource
  import opened Entries
  import opened PageSpec
  import opened Pager
  import opened PagerExact
  import Chunks
  import ToolResults
  import Todos
  import LiveSource

  /** Texts stand for themselves; a leading '!' marks a steer. */
  const PLAIN := Rules(
    (s: string) => s,
    (s: string) => s,
    (s: string) => s,
    (s: string) => if HasPrefix(s, "!") then Some(s[1..]) else None,
    (s: string) => false,
    (s: string) => false,
    "approved",
    (s: string) => s,
    (s: string) => s,
    (s: string) => s,
    (s: string) => false,
    (s: string) => s,
    (s: string) => s,
    (cards: seq<string>) => cards,
    (name: string, args: string) => args,
    (name: string, args: string, output: string) => output,
    (s: string) => false,
    (s: string) => s,
    (s: string) => [],
    (todos: seq<Todo>) => todos,
    (step: string, todos: seq<Todo>) => None,
    (todos: seq<Todo>) => None)

  function Text(role: Role, content: string): Message {
    Message(role, content, "", "", [], [], "", "", [], 0, 0, false, None, [], false, None, None)
  }

  /** The snapshot source of a session, read from memory. */
  function SourceOf(s: Session): Source {
    LiveSource.SnapshotView(s.rules, "s", s.msgs, LiveSource.Persisted(0, false, "", 0),
                            (lo: int, hi: int) => if 0 <= lo <= hi <= |s.msgs| then Ok(s.msgs[lo..hi])
                              else Err("range"))
  }

  lemma {:induction false} SourceServes(s: Session)
    ensures Serves(SourceOf(s), s.msgs) && Readable(SourceOf(s))
    ensures SourceOf(s).total == |s.msgs| == |SourceOf(s).turns|
  {
    hide LiveSource.VisibleTurns;
  }

  lemma {:induction false} SnapshotIdentity(s: Session)
    ensures !SourceOf(s).revKnown && SourceOf(s).revision == 0 && SourceOf(s).windowBytes.None?
  {
  }

  // ---------------------------------------------------------------------------------
  // Short texts
  // ---------------------------------------------------------------------------------

  const BRIEF := 1000

  predicate BriefMessage(m: Message) {
    && |m.content| <= BRIEF && |m.reasoningContent| <= BRIEF && m.rawContent == "" && !m.localOnly
    && m.decisionReceipt.None? && m.decisionReceipts == []
    && forall k :: 0 <= k < |m.toolCalls| ==> BriefToolCall(m.toolCalls[k])
  }

  predicate BriefToolCall(tc: ToolCall) {
    |tc.arguments| <= BRIEF && |tc.diff| <= BRIEF && tc.name != "todo_write"
  }

  predicate BriefCall(call: RowCall) {
    |call.arguments| <= BRIEF && |call.subject| <= BRIEF && |call.summary| <= BRIEF && |call.diff| <= BRIEF
  }

  predicate BriefRow(row: Row) {
    && |row.content| <= 2 * BRIEF && |row.reasoning| <= BRIEF && |row.submitText| <= BRIEF && |row.detail| <= BRIEF
    && |row.code| <= BRIEF && |row.summary| <= BRIEF && |row.archive| <= BRIEF && |row.toolResultError| <= BRIEF
    && forall k :: 0 <= k < |row.toolCalls| ==> BriefCall(row.toolCalls[k])
  }

  predicate BriefRows(rows: seq<Row>) {
    forall k :: 0 <= k < |rows| ==> BriefRow(rows[k])
  }

  predicate BriefTurns(turns: seq<PlannerTurn>) {
    forall k :: 0 <= k < |turns| ==> BriefRows(turns[k].messages)
  }

  ghost predicate BriefState(st: Planner) {
    forall key :: key in st.queues ==> BriefTurns(st.queues[key])
  }

  ghost predicate BriefSession(s: Session) {
    && s.rules == PLAIN && BriefTurns(s.planners)
    && forall i :: 0 <= i < |s.msgs| ==> BriefMessage(s.msgs[i])
  }

  ghost predicate BriefLookups(lk: Lookups) {
    lk.todoArgs == map[] && forall id :: id in lk.results ==> |lk.results[id].content| <= BRIEF
  }

  lemma {:induction false} BriefSplits(rows: seq<Row>)
    requires BriefRows(rows)
    ensures RowsSplit(rows)
  {
    forall k | 0 <= k < |rows| ensures RowSplits(rows[k]) {
      assert BriefRow(rows[k]);
      forall n | 0 <= n < |rows[k].toolCalls| ensures CallSplits(rows[k].toolCalls[n]) {
        assert BriefCall(rows[k].toolCalls[n]);
      }
    }
  }

  lemma {:induction false} CancelledIsBrief()
    ensures BriefRow(CANCELLED_ROW)
  {
  }

  // ---------------------------------------------------------------------------------
  // Short messages make short rows
  // ---------------------------------------------------------------------------------

  lemma {:induction false} BriefCalls(m: Message, lk: Lookups)
    requires BriefMessage(m) && BriefLookups(lk)
    ensures forall k :: 0 <= k < |m.toolCalls| ==> BriefCall(RowCalls(PLAIN, m.toolCalls, lk)[k])
  {
    forall k | 0 <= k < |m.toolCalls| ensures BriefCall(RowCalls(PLAIN, m.toolCalls, lk)[k]) {
      assert BriefToolCall(m.toolCalls[k]);
    }
  }

  lemma {:induction false} BriefBody(index: int, m: Message, content: string, lk: Lookups)
    requires BriefMessage(m) && BriefLookups(lk) && |content| <= BRIEF
    ensures BriefRows(BodyRows(PLAIN, index, m, content, lk))
  {
    hide RowCalls, BriefCall, BriefLookups, BriefToolCall;
    BriefCalls(m, lk);
    assert ReceiptRows([]) == [];
    assert BriefRow(BodyRow(PLAIN, index, m, content, lk));
  }

  lemma {:induction false} BriefSteer(m: Message)
    requires BriefMessage(m)
    ensures SteerRows(PLAIN, UserText(PLAIN, m), false).Some? ==>
              BriefRows(SteerRows(PLAIN, UserText(PLAIN, m), false).value)
  {
  }

  lemma {:induction false} BriefStep(st: Planner, index: int, m: Message, lk: Lookups)
    requires BriefMessage(m) && BriefState(st) && BriefLookups(lk)
    ensures BriefRows(ConvertStep(PLAIN, st, index, m, lk).rows)
  {
    hide BriefRow, BodyRows, SteerRows, BriefLookups;
    assert LocalOnlyRows(PLAIN, m).None?;
    assert |DisplayContent(PLAIN, m)| <= BRIEF;
    BriefBody(index, m, m.content, lk);
    BriefBody(index, m, DisplayContent(PLAIN, m), lk);
    BriefSteer(m);
    var key := PLAIN.displayKey(UserText(PLAIN, m));
    if Queue(st, key) != [] {
      assert BriefTurns(st.queues[key]) && BriefRows(st.queues[key][0].messages);
    }
  }

  lemma {:induction false} BriefDequeue(st: Planner, key: string)
    requires BriefState(st)
    ensures BriefState(Dequeue(st, key))
  {
    hide BriefRows, SuppressesCanonical;
    if Queue(st, key) != [] {
      assert BriefTurns(st.queues[key]);
      assert BriefTurns(st.queues[key][1..]);
    }
  }

  lemma {:induction false} BriefConvertAll(st: Planner, msgs: seq<Message>)
    requires BriefState(st)
    ensures BriefState(ConvertAll(PLAIN, st, msgs)) && BriefState(ConsumeAll(PLAIN, st, msgs))
  {
    hide BriefTurns, Dequeue, LocalOnlyRows, Swallowed, SyntheticMessage;
    if msgs != [] {
      BriefConvertAll(st, msgs[..|msgs| - 1]);
      var key := PLAIN.displayKey(UserText(PLAIN, msgs[|msgs| - 1]));
      BriefDequeue(ConvertAll(PLAIN, st, msgs[..|msgs| - 1]).(suppress := false), key);
      BriefDequeue(ConsumeAll(PLAIN, st, msgs[..|msgs| - 1]).(suppress := false), key);
    }
  }

  lemma {:induction false} BriefQueues(turns: seq<PlannerTurn>)
    requires BriefTurns(turns)
    ensures BriefState(Initial(PLAIN, turns))
  {
    hide BriefRows, Kept;
    if turns != [] {
      BriefQueues(turns[..|turns| - 1]);
    }
  }

  lemma {:induction false} BriefWindowLookups(s: Session, lo: nat, hi: nat)
    requires BriefSession(s) && lo <= hi <= |s.msgs|
    ensures BriefLookups(WindowLookups(s, lo, hi))
  {
    hide ToolResults.Last, ToolResults.First;
    forall i, k | 0 <= i < hi - lo && 0 <= k < |s.msgs[lo..hi][i].toolCalls|
      ensures s.msgs[lo..hi][i].toolCalls[k].name != "todo_write"
    {
      assert BriefMessage(s.msgs[lo + i]) && BriefToolCall(s.msgs[lo + i].toolCalls[k]);
    }
    assert !Todos.ContainsTodoWrite(s.msgs[lo..hi]);
    var results := WindowResults(s, lo, hi);
    forall id | id in results ensures |results[id].content| <= BRIEF {
      assert exists p :: 0 <= p < |s.msgs| && results[id] == s.msgs[p];
    }
  }

  lemma {:induction false} BriefWindow(s: Session, lo: nat, hi: nat, i: nat)
    requires BriefSession(s) && lo <= i < hi <= |s.msgs|
    ensures BriefRows(WindowRows(s, lo, hi, i))
  {
    hide ConvertStep, ConvertAll, ConsumeAll, BriefLookups, BriefState, BriefRows, WindowLookups, WindowMessages;
    BriefQueues(s.planners);
    BriefConvertAll(Initial(PLAIN, s.planners), s.msgs[..lo]);
    BriefConvertAll(PrimedState(s, lo), WindowMessages(s, lo, hi)[..i - lo]);
    BriefWindowLookups(s, lo, hi);
    WindowKeepsCalls(s, lo, hi, i);
    BriefStep(WindowState(s, lo, hi, i), i, WindowMessages(s, lo, hi)[i - lo], WindowLookups(s, lo, hi));
  }

  /** Every request about a brief session returns. */
  lemma {:induction false} BriefReturns(s: Session, src: Source, req: Request)
    requires BriefSession(s) && src.total == |s.msgs| == |src.turns|
    ensures AllReturn(s, src, req)
  {
    hide WindowRows, WindowStart, BriefSession, BriefRows, RowsSplit;
    forall hi | 0 < hi <= src.total ensures PageReturns(s, src, hi, Normalize(req)) {
      var lo := WindowStart(src, hi, Normalize(req).turns);
      forall i | lo <= i < hi ensures RowsSplitAt(s, lo, hi, i) {
        BriefWindow(s, lo, hi, i);
        BriefSplits(WindowRows(s, lo, hi, i));
      }
    }
  }
}
