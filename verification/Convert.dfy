/** The provider-message to history-row conversion and the planner state it threads. */
module Convert {
  import opened Prelude
  import opened HistoryModel

  /** historyMessageConvertState: FIFO planner displays per user-text hash, and the
      suppression an interrupted planner turn arms. */
  datatype Planner = Planner(queues: map<string, seq<PlannerTurn>>, suppress: bool)

  /** The read-only inputs of one conversion pass. */
  datatype Lookups = Lookups(
    checkpoints: map<int, int>, todoArgs: map<string, string>, results: map<string, Message>)

  // ---------------------------------------------------------------------------------
  // Rows of one message
  // ---------------------------------------------------------------------------------

  function ReceiptRow(receipt: string): Row {
    EMPTY_ROW.(role := "notice", code := "decision_receipt", level := "info",
    decisionReceipt := Some(receipt))
  }

  const CANCELLED_CODE := "cancelled_turn_display"
  const CANCELLED_ROW := EMPTY_ROW.(role := "notice", level := "info", code := CANCELLED_CODE,
      content := "This turn was interrupted. Partial output is kept for reference; only completed tool pairs and a " +
                 "bounded recovery summary enter the next model turn. " +
                 "Inspect the workspace before continuing or reverting changes.")

  /** historySteerRows: None when the text is not a steer. */
  function SteerRows(r: Rules, content: string, unapplied: bool): Option<seq<Row>> {
    match ReplaySteerText(r, content)
    case None => None
    case Some(text) =>
      if text == "" then Some([])
      else if unapplied then
        Some([EMPTY_ROW.(role := "notice", content := r.unappliedNotice(text),
              code := "unapplied_steer", level := "warn")])
      else Some([EMPTY_ROW.(role := "notice", content := "\U{E2}\U{86}\U{AA} " + text)])
  }

  predicate PendingReadiness(m: Message) {
    m.readiness.Some? && m.readiness.value.pending
  }

  /** historyLocalOnlyRows: None when the message goes through the ordinary conversion. */
  function LocalOnlyRows(r: Rules, m: Message): Option<seq<Row>> {
    if !m.localOnly then None
    else if PendingReadiness(m) then
      Some([EMPTY_ROW.(role := "notice", code := "final_readiness", level := "info",
            pending := true, missing := m.readiness.value.missing,
            content := "Task status needs one more check; continue the remaining work.")])
    else SteerRows(r, UserText(r, m), true)
  }

  function SubmitText(r: Rules, m: Message, content: string): string {
    if m.role.User? && content != m.content then
      var replay := r.replay(m.content);
      if replay == content then ""
      else if r.memoryCompiler(m.content) && !HasPrefix(r.trim(replay), "/") then ""
      else replay
    else ""
  }

  function CallArguments(tc: ToolCall, todoArgs: map<string, string>): string {
    if tc.name == "todo_write" && tc.id in todoArgs then todoArgs[tc.id] else tc.arguments
  }

  /** Output text the summary of a call is computed from; a missing result is empty. */
  function ResultText(results: map<string, Message>, id: string): string {
    if id in results then results[id].content else ""
  }

  /** historyToolCall. */
  function RowCallOf(r: Rules, tc: ToolCall, args: string, output: string): RowCall {
    var inline := tc.name == "todo_write" || tc.id == "";
    RowCall(tc.id, tc.name, if inline then args else "", tc.resolvedName, tc.capabilityID,
            tc.resolvedReadOnly, r.toolSubject(tc.name, args),
            r.toolSummary(tc.name, args, output), tc.diff, tc.added, tc.removed,
            !inline && args != "")
  }

  function RowCalls(r: Rules, calls: seq<ToolCall>, lk: Lookups): (out: seq<RowCall>)
    ensures |out| == |calls|
    ensures forall k :: 0 <= k < |calls| ==>
      out[k] == RowCallOf(r, calls[k], CallArguments(calls[k], lk.todoArgs), ResultText(lk.results, calls[k].id))
  {
    if calls == [] then []
    else RowCalls(r, calls[..|calls| - 1], lk) +
         [RowCallOf(r, calls[|calls| - 1], CallArguments(calls[|calls| - 1], lk.todoArgs),
                    ResultText(lk.results, calls[|calls| - 1].id))]
  }

  datatype ToolText = ToolText(display: string, archived: bool, error: string)

  /** historyToolResultContent. */
  function ToolResultText(r: Rules, content: string, canArchive: bool): ToolText {
    if content == "" then ToolText("", false, "")
    else if !canArchive then
      ToolText(content, false, if r.failed(content) then content else "")
    else if r.failed(content) then
      var display := r.clipPreview(r.trim(content));
      ToolText(display, display != content, display)
    else ToolText("", true, "")
  }

  predicate AssistantLike(m: Message) {
    m.role.Assistant? || m.localOnly
  }

  /** The row of a message whose tool calls are already rendered. */
  function BareRow(r: Rules, m: Message, content: string, checkpoint: Option<int>, calls: seq<RowCall>): Row {
    var row := EMPTY_ROW.(
      role := if m.localOnly then "assistant" else RoleName(m.role),
      content := content,
      checkpointTurn := checkpoint,
      createdAt := m.createdAt,
      reasoning := if AssistantLike(m) then m.reasoningContent else "",
      workDurationMs := m.workDurationMs,
      memoryCitations := if m.role.Assistant? then m.memoryCitations else [],
      submitText := SubmitText(r, m, content),
      serverSearch := r.searchCards(m.serverSearch),
      toolCalls := calls);
    if m.role.Tool? && !m.localOnly then
      var text := ToolResultText(r, m.content, m.toolCallID != "");
      row.(toolCallID := m.toolCallID, toolName := m.name, content := text.display,
      toolResultArchived := text.archived, toolResultError := text.error,
      execution := m.execution)
    else row
  }

  function CheckpointOf(index: int, m: Message, lk: Lookups): Option<int> {
    if m.role.User? && index in lk.checkpoints then Some(lk.checkpoints[index]) else None
  }

  function BodyRow(r: Rules, index: int, m: Message, content: string, lk: Lookups): Row {
    BareRow(r, m, content, CheckpointOf(index, m, lk), if AssistantLike(m) then RowCalls(r, m.toolCalls, lk) else [])
  }

  function ReceiptRows(receipts: seq<Option<string>>): seq<Row> {
    if receipts == [] then []
    else
      var last := receipts[|receipts| - 1];
      ReceiptRows(receipts[..|receipts| - 1]) + if last.Some? then [ReceiptRow(last.value)] else []
  }

  predicate HasVisibleContent(r: Rules, m: Message, row: Row) {
    r.trim(row.content) != "" || r.trim(row.reasoning) != "" || row.toolCalls != [] ||
    (!m.localOnly && m.role.Tool?)
  }

  /** The rows a message contributes itself, without the planner display after it. */
  function BodyRows(r: Rules, index: int, m: Message, content: string, lk: Lookups): seq<Row> {
    var row := BodyRow(r, index, m, content, lk);
    (if !m.localOnly || HasVisibleContent(r, m, row) then [row] else []) +
    ReceiptRows(m.decisionReceipts) +
    (if m.localOnly && m.interrupted then [CANCELLED_ROW] else [])
  }

  // ---------------------------------------------------------------------------------
  // Planner state
  // ---------------------------------------------------------------------------------

  predicate SuppressesCanonical(turn: PlannerTurn) {
    exists k :: 0 <= k < |turn.messages| && turn.messages[k].role == "notice" && turn.messages[k].code == CANCELLED_CODE
  }

  function Queue(st: Planner, key: string): seq<PlannerTurn> {
    if key in st.queues then st.queues[key] else []
  }

  /** Attach the oldest planner display recorded for `key`, if any. */
  function Dequeue(st: Planner, key: string): Planner {
    var turns := Queue(st, key);
    if turns == [] then st
    else Planner(st.queues[key := turns[1..]], SuppressesCanonical(turns[0]))
  }

  predicate Kept(turn: PlannerTurn, r: Rules) {
    r.trim(turn.userHash) != "" && turn.messages != []
  }

  /** plannerTurnsByUserHash. */
  function QueuesOf(r: Rules, turns: seq<PlannerTurn>): map<string, seq<PlannerTurn>> {
    if turns == [] then map[]
    else
      var prev := QueuesOf(r, turns[..|turns| - 1]);
      var turn := turns[|turns| - 1];
      if Kept(turn, r) then
        prev[turn.userHash := (if turn.userHash in prev then prev[turn.userHash] else []) + [turn]]
      else prev
  }

  function Initial(r: Rules, turns: seq<PlannerTurn>): Planner {
    Planner(QueuesOf(r, turns), false)
  }

  /** What one message does: the rows it becomes and the state it leaves. */
  datatype Step = Step(rows: seq<Row>, next: Planner)

  predicate Swallowed(r: Rules, st: Planner, m: Message) {
    st.suppress && !(m.role.User? && Authored(r, m))
  }

  /** convertHistoryMessage. */
  function ConvertStep(r: Rules, st: Planner, index: int, m: Message, lk: Lookups): Step {
    if m.decisionReceipt.Some? then Step([ReceiptRow(m.decisionReceipt.value)], st)
    else if LocalOnlyRows(r, m).Some? then Step(LocalOnlyRows(r, m).value, st)
    else if Swallowed(r, st, m) then Step([], st)
    else
      var open := st.(suppress := false);
      if m.role.User? then
        if SteerRows(r, UserText(r, m), false).Some? then Step(SteerRows(r, UserText(r, m), false).value, open)
        else if SyntheticDisplay(r, m) then Step([], open)
        else
          var key := r.displayKey(UserText(r, m));
          var planned := if Queue(open, key) == [] then [] else Queue(open, key)[0].messages;
          Step(BodyRows(r, index, m, DisplayContent(r, m), lk) + planned, Dequeue(open, key))
      else Step(BodyRows(r, index, m, m.content, lk), open)
  }

  /** The state part of the conversion; it depends on neither the index nor the lookups. */
  function ConvertNext(r: Rules, st: Planner, m: Message): Planner {
    if m.decisionReceipt.Some? || LocalOnlyRows(r, m).Some? || Swallowed(r, st, m) then st
    else if m.role.User? && !Steer(r, m) && !SyntheticDisplay(r, m) then
      Dequeue(st.(suppress := false), r.displayKey(UserText(r, m)))
    else st.(suppress := false)
  }

  lemma {:induction false} NextOfStep(r: Rules, st: Planner, index: int, m: Message, lk: Lookups)
    ensures ConvertStep(r, st, index, m, lk).next == ConvertNext(r, st, m)
  {
    assert SteerRows(r, UserText(r, m), false).Some? <==> Steer(r, m);
  }

  /** consumeHistoryPlannerState: the state-only pass over messages a page does not render. */
  function ConsumeNext(r: Rules, st: Planner, m: Message): Planner {
    if m.decisionReceipt.Some? then st
    else if m.localOnly && Steer(r, m) then st
    else if Swallowed(r, st, m) then st
    else
      var open := st.(suppress := false);
      if !m.role.User? || SyntheticDisplay(r, m) then open
      else Dequeue(open, r.displayKey(UserText(r, m)))
  }

  // ---------------------------------------------------------------------------------
  // Lock-step
  // ---------------------------------------------------------------------------------

  /** The two passes leave the same state on `m` in the state `st`.  They differ only when
      `m` is a user-role steer or pending-readiness sentinel that finds a planner display of
      its own text to consume, or is a sentinel that lifts a suppression. */
  predicate InStepAt(r: Rules, st: Planner, m: Message) {
    || m.decisionReceipt.Some?
    || !m.role.User?
    || Swallowed(r, st, m)
    || (if Steer(r, m) then m.localOnly || SyntheticDisplay(r, m) || Queue(st, r.displayKey(UserText(r, m))) == []
        else m.localOnly && PendingReadiness(m) ==>
          !st.suppress && (SyntheticDisplay(r, m) || Queue(st, r.displayKey(UserText(r, m))) == []))
  }

  lemma {:induction false} InStepIff(r: Rules, st: Planner, m: Message)
    ensures InStepAt(r, st, m) <==> ConsumeNext(r, st, m) == ConvertNext(r, st, m)
  {
    hide UserText, DisplayContent, SyntheticMessage, SteerRows, SyntheticText;
    assert SteerRows(r, UserText(r, m), true).Some? <==> Steer(r, m) by {
      SteerRowsIff(r, m, true);
    }
    assert LocalOnlyRows(r, m).Some? <==> m.localOnly && (PendingReadiness(m) || Steer(r, m));
    assert Steer(r, m) ==> !Authored(r, m);
    var open := st.(suppress := false);
    assert Queue(open, r.displayKey(UserText(r, m))) == Queue(st, r.displayKey(UserText(r, m)));
    DequeueChanges(open, r.displayKey(UserText(r, m)));
  }

  lemma {:induction false} SteerRowsIff(r: Rules, m: Message, unapplied: bool)
    ensures SteerRows(r, UserText(r, m), unapplied).Some? <==> Steer(r, m)
  {
    hide UserText;
  }

  lemma {:induction false} DequeueChanges(st: Planner, key: string)
    ensures Dequeue(st, key).queues == st.queues <==> Queue(st, key) == []
  {
    var turns := Queue(st, key);
    if turns != [] {
      assert Dequeue(st, key).queues[key] == turns[1..];
    }
  }

  /** Messages in step in every state: everything except user-role steers outside the local-only
      path whose display is not synthetic, and user-role pending-readiness sentinels that are
      authored or not synthetic. */
  predicate LockStep(r: Rules, m: Message) {
    || m.decisionReceipt.Some?
    || !m.role.User?
    || (if m.localOnly then
          Steer(r, m) || !PendingReadiness(m) || (!Authored(r, m) && SyntheticDisplay(r, m))
        else !Steer(r, m) || SyntheticDisplay(r, m))
  }

  /** A state that tells the two passes apart on `m`, when there is one. */
  ghost function Witness(r: Rules, m: Message): Planner {
    if SyntheticDisplay(r, m) then Planner(map[], true)
    else Planner(map[r.displayKey(UserText(r, m)) := [PlannerTurn("x", [])]], false)
  }

  /** A message is in lock-step exactly when no planner state tells the two passes apart. */
  lemma {:induction false} LockStepIff(r: Rules, m: Message)
    ensures LockStep(r, m) <==> forall st :: InStepAt(r, st, m)
  {
    hide UserText, DisplayContent, SyntheticMessage, SyntheticText;
    assert Steer(r, m) ==> !Authored(r, m);
    if !LockStep(r, m) {
      assert !InStepAt(r, Witness(r, m), m);
    }
  }

  function ConvertAll(r: Rules, st: Planner, msgs: seq<Message>): Planner {
    if msgs == [] then st
    else ConvertNext(r, ConvertAll(r, st, msgs[..|msgs| - 1]), msgs[|msgs| - 1])
  }

  function ConsumeAll(r: Rules, st: Planner, msgs: seq<Message>): Planner {
    if msgs == [] then st
    else ConsumeNext(r, ConsumeAll(r, st, msgs[..|msgs| - 1]), msgs[|msgs| - 1])
  }

  /** The state-only pass follows the conversion over every prefix exactly when each message
      is in step in the state the conversion reaches it in. */
  lemma {:induction false} PrefixesAgreeIff(r: Rules, st: Planner, msgs: seq<Message>)
    ensures (forall n :: 0 <= n <= |msgs| ==> ConsumeAll(r, st, msgs[..n]) == ConvertAll(r, st, msgs[..n])) <==>
            (forall i :: 0 <= i < |msgs| ==> InStepAt(r, ConvertAll(r, st, msgs[..i]), msgs[i]))
  {
    hide ConvertNext, ConsumeNext, InStepAt;
    if forall n :: 0 <= n <= |msgs| ==> ConsumeAll(r, st, msgs[..n]) == ConvertAll(r, st, msgs[..n]) {
      forall i | 0 <= i < |msgs| ensures InStepAt(r, ConvertAll(r, st, msgs[..i]), msgs[i]) {
        InStepIff(r, ConvertAll(r, st, msgs[..i]), msgs[i]);
        assert msgs[..i + 1][..i] == msgs[..i];
        assert ConsumeAll(r, st, msgs[..i + 1]) == ConvertAll(r, st, msgs[..i + 1]);
      }
    }
    if forall i :: 0 <= i < |msgs| ==> InStepAt(r, ConvertAll(r, st, msgs[..i]), msgs[i]) {
      forall n | 0 <= n <= |msgs| ensures ConsumeAll(r, st, msgs[..n]) == ConvertAll(r, st, msgs[..n]) {
        PrefixInStep(r, st, msgs, n);
      }
    }
  }

  lemma {:induction false} PrefixInStep(r: Rules, st: Planner, msgs: seq<Message>, n: nat)
    requires n <= |msgs| && forall i :: 0 <= i < n ==> InStepAt(r, ConvertAll(r, st, msgs[..i]), msgs[i])
    ensures ConsumeAll(r, st, msgs[..n]) == ConvertAll(r, st, msgs[..n])
  {
    hide ConvertNext, ConsumeNext, InStepAt;
    if n > 0 {
      PrefixInStep(r, st, msgs, n - 1);
      InStepIff(r, ConvertAll(r, st, msgs[..n - 1]), msgs[n - 1]);
      assert msgs[..n][..n - 1] == msgs[..n - 1];
    }
  }

  /** Without planner displays no message changes the state, so priming may be skipped. */
  lemma {:induction false} NoDisplaysNoState(r: Rules, msgs: seq<Message>)
    ensures ConvertAll(r, Planner(map[], false), msgs) == Planner(map[], false)
  {
    if msgs != [] {
      NoDisplaysNoState(r, msgs[..|msgs| - 1]);
    }
  }

  lemma {:induction false} ConvertAllConcat(r: Rules, st: Planner, a: seq<Message>, b: seq<Message>)
    ensures ConvertAll(r, ConvertAll(r, st, a), b) == ConvertAll(r, st, a + b)
  {
    if b == [] {
      assert a + b == a;
    } else {
      var init := b[..|b| - 1];
      assert (a + b)[..|a + b| - 1] == a + init;
      ConvertAllConcat(r, st, a, init);
    }
  }

  lemma {:induction false} ConsumeAllConcat(r: Rules, st: Planner, a: seq<Message>, b: seq<Message>)
    ensures ConsumeAll(r, ConsumeAll(r, st, a), b) == ConsumeAll(r, st, a + b)
  {
    if b == [] {
      assert a + b == a;
    } else {
      var init := b[..|b| - 1];
      assert (a + b)[..|a + b| - 1] == a + init;
      ConsumeAllConcat(r, st, a, init);
    }
  }

  // ---------------------------------------------------------------------------------
  // Timestamps
  // ---------------------------------------------------------------------------------

  predicate SameButTime(m: Message, n: Message) {
    n == m.(createdAt := n.createdAt)
  }

  lemma {:induction false} SameButTimeBoth(m: Message, a: Message, b: Message)
    requires SameButTime(m, a) && SameButTime(m, b)
    ensures SameButTime(a, b)
  {
  }

  lemma {:induction false} TextIgnoresTime(r: Rules, m: Message, n: Message)
    requires SameButTime(m, n)
    ensures UserText(r, m) == UserText(r, n) && DisplayContent(r, m) == DisplayContent(r, n)
    ensures LocalOnlyRows(r, m) == LocalOnlyRows(r, n)
  {
    hide SteerRows;
  }

  lemma {:induction false} NextIgnoresTime(r: Rules, st: Planner, m: Message, n: Message)
    requires SameButTime(m, n)
    ensures ConvertNext(r, st, m) == ConvertNext(r, st, n)
  {
    hide UserText, DisplayContent, LocalOnlyRows, AuthoredText, SyntheticMessage;
    TextIgnoresTime(r, m, n);
  }

  lemma {:induction false} AllIgnoresTime(r: Rules, st: Planner, msgs: seq<Message>, other: seq<Message>)
    requires |msgs| == |other| && forall k :: 0 <= k < |msgs| ==> SameButTime(msgs[k], other[k])
    ensures ConvertAll(r, st, msgs) == ConvertAll(r, st, other)
  {
    if msgs != [] {
      AllIgnoresTime(r, st, msgs[..|msgs| - 1], other[..|other| - 1]);
      NextIgnoresTime(r, ConvertAll(r, st, msgs[..|msgs| - 1]), msgs[|msgs| - 1], other[|other| - 1]);
    }
  }

  /** A user message that produces a user row, in some state. */
  predicate ReachesBody(r: Rules, m: Message) {
    m.decisionReceipt.None? && LocalOnlyRows(r, m).None? && (m.role.User? ==> !Steer(r, m) && !SyntheticDisplay(r, m))
  }

  function ShownContent(r: Rules, m: Message): string {
    if m.role.User? then DisplayContent(r, m) else m.content
  }

  /** In the state `st` the message renders the row that carries its timestamp. */
  predicate ShowsBody(r: Rules, st: Planner, index: int, m: Message, lk: Lookups) {
    && ReachesBody(r, m) && !Swallowed(r, st, m)
    && (!m.localOnly || HasVisibleContent(r, m, BodyRow(r, index, m, ShownContent(r, m), lk)))
  }

  /** Rows equal up to the timestamp. */
  predicate SameRow(a: Row, b: Row) {
    b == a.(createdAt := b.createdAt)
  }

  predicate SameRows(a: seq<Row>, b: seq<Row>) {
    |a| == |b| && forall k :: 0 <= k < |a| ==> SameRow(a[k], b[k])
  }

  lemma {:induction false} BodyButTime(r: Rules, index: int, m: Message, n: Message, content: string, lk: Lookups)
    requires SameButTime(m, n)
    ensures SameRows(BodyRows(r, index, m, content, lk), BodyRows(r, index, n, content, lk))
  {
    hide RowCalls;
    assert SameRow(BodyRow(r, index, m, content, lk), BodyRow(r, index, n, content, lk));
  }

  /** A timestamp reaches nothing but the timestamp of the rows. */
  lemma {:induction false} RowsButTime(r: Rules, st: Planner, index: int, m: Message, n: Message, lk: Lookups)
    requires SameButTime(m, n)
    ensures SameRows(ConvertStep(r, st, index, m, lk).rows, ConvertStep(r, st, index, n, lk).rows)
  {
    hide UserText, DisplayContent, LocalOnlyRows, AuthoredText, SyntheticMessage, BodyRows, SteerRows;
    TextIgnoresTime(r, m, n);
    BodyButTime(r, index, m, n, m.content, lk);
    BodyButTime(r, index, m, n, DisplayContent(r, m), lk);
  }

  lemma {:induction false} BodySameIff(r: Rules, index: int, m: Message, n: Message, content: string, lk: Lookups)
    requires SameButTime(m, n)
    ensures BodyRows(r, index, m, content, lk) == BodyRows(r, index, n, content, lk) <==>
            m == n || (m.localOnly && !HasVisibleContent(r, m, BodyRow(r, index, m, content, lk)))
  {
    hide RowCalls;
    var a, b := BodyRow(r, index, m, content, lk), BodyRow(r, index, n, content, lk);
    assert SameRow(a, b) && a.createdAt == m.createdAt && b.createdAt == n.createdAt;
    if BodyRows(r, index, m, content, lk) == BodyRows(r, index, n, content, lk) &&
      (!m.localOnly || HasVisibleContent(r, m, a)) {
      assert BodyRows(r, index, m, content, lk)[0] == a;
      assert BodyRows(r, index, n, content, lk)[0] == b;
    }
  }

  /** A timestamp changes the rows exactly when the message shows a row of its own. */
  lemma {:induction false} RowsSameIff(r: Rules, st: Planner, index: int, m: Message, n: Message, lk: Lookups)
    requires SameButTime(m, n)
    ensures ConvertStep(r, st, index, m, lk).rows == ConvertStep(r, st, index, n, lk).rows <==>
              m == n || !ShowsBody(r, st, index, m, lk)
  {
    hide UserText, DisplayContent, LocalOnlyRows, AuthoredText, SyntheticMessage, BodyRows, BodyRow, HasVisibleContent,
      SteerRows;
    TextIgnoresTime(r, m, n);
    assert SteerRows(r, UserText(r, m), false).Some? <==> Steer(r, m) by {
      SteerRowsIff(r, m, false);
    }
    BodySameIff(r, index, m, n, ShownContent(r, m), lk);
    if m.role.User? {
      var key := r.displayKey(UserText(r, m));
      var open := st.(suppress := false);
      var planned := if Queue(open, key) == [] then [] else Queue(open, key)[0].messages;
      AppendSame(BodyRows(r, index, m, ShownContent(r, m), lk), BodyRows(r, index, n, ShownContent(r, m), lk), planned);
    }
  }

  lemma {:induction false} BodyIgnoresTime(r: Rules, st: Planner, index: int, m: Message, n: Message, lk: Lookups)
    requires SameButTime(m, n)
    ensures ShowsBody(r, st, index, m, lk) == ShowsBody(r, st, index, n, lk)
  {
    hide UserText, DisplayContent, LocalOnlyRows, AuthoredText, SyntheticMessage, RowCalls;
    TextIgnoresTime(r, m, n);
  }

  lemma {:induction false} AppendSame(a: seq<Row>, b: seq<Row>, tail: seq<Row>)
    ensures a + tail == b + tail <==> a == b
  {
    if a + tail == b + tail {
      assert |a| == |b|;
      assert a == (a + tail)[..|a|] && b == (b + tail)[..|b|];
    }
  }

  // ---------------------------------------------------------------------------------
  // Lookups
  // ---------------------------------------------------------------------------------

  /** Two sets of lookups answer alike for every tool call of `m`. */
  predicate SameLookups(m: Message, a: Lookups, b: Lookups) {
    && a.checkpoints == b.checkpoints
    && forall k :: AssistantLike(m) && 0 <= k < |m.toolCalls| ==>
         && CallArguments(m.toolCalls[k], a.todoArgs) == CallArguments(m.toolCalls[k], b.todoArgs)
         && ResultText(a.results, m.toolCalls[k].id) == ResultText(b.results, m.toolCalls[k].id)
  }

  lemma {:induction false} BodyUsesOwnCalls(r: Rules, index: int, m: Message, content: string, a: Lookups, b: Lookups)
    requires SameLookups(m, a, b)
    ensures BodyRows(r, index, m, content, a) == BodyRows(r, index, m, content, b)
  {
    assert AssistantLike(m) ==> RowCalls(r, m.toolCalls, a) == RowCalls(r, m.toolCalls, b);
    var x, y := BodyRow(r, index, m, content, a), BodyRow(r, index, m, content, b);
    assert x == y;
  }

  lemma {:induction false} RowsUseOwnCalls(r: Rules, st: Planner, index: int, m: Message, a: Lookups, b: Lookups)
    requires SameLookups(m, a, b)
    ensures ConvertStep(r, st, index, m, a).rows == ConvertStep(r, st, index, m, b).rows
  {
    hide BodyRows, SteerRows, LocalOnlyRows, SameLookups, SyntheticMessage, AuthoredText;
    BodyUsesOwnCalls(r, index, m, m.content, a, b);
    BodyUsesOwnCalls(r, index, m, DisplayContent(r, m), a, b);
  }

  // ---------------------------------------------------------------------------------
  // The conversion as the source runs it
  // ---------------------------------------------------------------------------------

  /** historyMessageConvertState with its two passes. */
  class ConvertState {
    const rules: Rules
    var queues: map<string, seq<PlannerTurn>>
    var suppress: bool

    ghost function View(): Planner
      reads this
    {
      Planner(queues, suppress)
    }

    constructor (r: Rules, turns: seq<PlannerTurn>)
      ensures rules == r && View() == Initial(r, turns)
    {
      var out: map<string, seq<PlannerTurn>> := map[];
      for i := 0 to |turns|
        invariant out == QueuesOf(r, turns[..i])
      {
        var turn := turns[i];
        assert turns[..i + 1][..i] == turns[..i];
        if r.trim(turn.userHash) != "" && turn.messages != [] {
          var queued := if turn.userHash in out then out[turn.userHash] else [];
          out := out[turn.userHash := queued + [turn]];
        }
      }
      assert turns[..|turns|] == turns;
      rules, queues, suppress := r, out, false;
    }

    method ConvertHistoryMessage(index: int, m: Message, lk: Lookups) returns (rows: seq<Row>)
      modifies this
      ensures rows == ConvertStep(rules, old(View()), index, m, lk).rows
      ensures View() == ConvertNext(rules, old(View()), m)
    {
      NextOfStep(rules, View(), index, m, lk);
      if m.decisionReceipt.Some? {
        return [ReceiptRow(m.decisionReceipt.value)];
      }
      var local := LocalOnlyRows(rules, m);
      if local.Some? {
        return local.value;
      }
      if suppress {
        if !m.role.User? || !Authored(rules, m) {
          return [];
        }
        suppress := false;
      }
      var content := m.content;
      if m.role.User? {
        var steer := SteerRows(rules, UserText(rules, m), false);
        if steer.Some? {
          return steer.value;
        }
        content := DisplayContent(rules, m);
        if SyntheticMessage(rules, content) {
          return [];
        }
      }
      rows := MessageRows(index, m, content, lk);
      if m.role.User? {
        var key := rules.displayKey(UserText(rules, m));
        if key in queues && queues[key] != [] {
          var turns := queues[key];
          rows := rows + turns[0].messages;
          suppress := SuppressesCanonical(turns[0]);
          queues := queues[key := turns[1..]];
        }
      }
    }

    /** The stateless middle of convertHistoryMessage: the row itself, its receipts and the
        interruption notice. */
    method MessageRows(index: int, m: Message, content: string, lk: Lookups) returns (rows: seq<Row>)
      ensures rows == BodyRows(rules, index, m, content, lk)
    {
      var calls := [];
      if m.role.Assistant? || m.localOnly {
        calls := RenderCalls(m.toolCalls, lk);
      }
      var row := BareRow(rules, m, content, CheckpointOf(index, m, lk), calls);
      var receipts := RenderReceipts(m.decisionReceipts);
      rows := if !m.localOnly || HasVisibleContent(rules, m, row) then [row] else [];
      rows := rows + receipts;
      if m.localOnly && m.interrupted {
        rows := rows + [CANCELLED_ROW];
      }
    }

    method RenderCalls(toolCalls: seq<ToolCall>, lk: Lookups) returns (calls: seq<RowCall>)
      ensures calls == RowCalls(rules, toolCalls, lk)
    {
      hide RowCallOf, ResultText;
      calls := [];
      for i := 0 to |toolCalls|
        invariant calls == RowCalls(rules, toolCalls[..i], lk)
      {
        var tc := toolCalls[i];
        assert toolCalls[..i + 1][..i] == toolCalls[..i];
        var args := tc.arguments;
        if tc.name == "todo_write" && tc.id in lk.todoArgs {
          args := lk.todoArgs[tc.id];
        }
        calls := calls + [RowCallOf(rules, tc, args, ResultText(lk.results, tc.id))];
      }
      assert toolCalls[..|toolCalls|] == toolCalls;
    }

    method RenderReceipts(receipts: seq<Option<string>>) returns (rows: seq<Row>)
      ensures rows == ReceiptRows(receipts)
    {
      rows := [];
      for i := 0 to |receipts|
        invariant rows == ReceiptRows(receipts[..i])
      {
        assert receipts[..i + 1][..i] == receipts[..i];
        if receipts[i].Some? {
          rows := rows + [ReceiptRow(receipts[i].value)];
        }
      }
      assert receipts[..|receipts|] == receipts;
    }

    method ConsumeHistoryPlannerState(m: Message)
      modifies this
      ensures View() == ConsumeNext(rules, old(View()), m)
    {
      hide UserText, DisplayContent, SyntheticMessage, AuthoredText, SuppressesCanonical;
      if m.decisionReceipt.Some? {
        return;
      }
      if m.localOnly && rules.steerText(UserText(rules, m)).Some? {
        return;
      }
      if suppress {
        if !m.role.User? || !Authored(rules, m) {
          return;
        }
        suppress := false;
      }
      if !m.role.User? {
        return;
      }
      if SyntheticMessage(rules, DisplayContent(rules, m)) {
        return;
      }
      var key := rules.displayKey(UserText(rules, m));
      if key in queues && queues[key] != [] {
        suppress := SuppressesCanonical(queues[key][0]);
        queues := queues[key := queues[key][1..]];
      }
    }
  }
}
