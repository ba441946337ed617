/** What the conversion of one message shows, in terms of the message, the lookups and the text
    rules alone. */
module ConvertMeaning {
  import opened Prelude
  import opened HistoryModel
  import opened Convert

  // ---------------------------------------------------------------------------------
  // What a user message says
  // ---------------------------------------------------------------------------------

  /** `text` is what the user wrote: the raw text without surrounding blanks when it was recorded, else
      the preview of the content. */
  predicate Wrote(r: Rules, m: Message, text: string) {
    if m.rawContent == "" then text == r.previewText(m.content) else text == r.trim(m.rawContent)
  }

  /** `shown` is how the message is displayed: its display sidecar, recognized by being neither blank
      nor what replaying the content gives anyway; without one, what was written or replayed, with
      expanded pastes collapsed. */
  predicate Displays(r: Rules, m: Message, shown: string) {
    var sidecar, replayed := r.trim(r.resolve(m.content)), r.trim(r.replay(m.content));
    if sidecar == "" || sidecar == replayed then
      shown == r.collapsePaste(if m.rawContent == "" then replayed else r.trim(m.rawContent))
    else shown == sidecar
  }

  /** The text was put there by the host: the plan approval, host guidance, a text with one of the
      synthetic prefixes, or a steer that carries host guidance. */
  ghost predicate FromHost(r: Rules, text: string) {
    var bare := r.trim(r.stripTransient(text));
    bare == r.planApproved || r.hostGuidance(bare) || r.syntheticPrefix(bare) ||
    exists guidance :: r.steerText(text) == Some(guidance) && r.hostGuidance(guidance)
  }

  /** The text was written by the user as a turn of its own: not blank, no steer, not guidance and
      without a synthetic prefix. */
  predicate OwnTurn(r: Rules, text: string) {
    var bare := r.trim(r.stripTransient(text));
    bare != "" && !r.hostGuidance(bare) && !r.syntheticPrefix(bare) && r.steerText(text) == None
  }

  lemma {:induction false} TextsMean(r: Rules, m: Message)
    ensures Wrote(r, m, UserText(r, m)) && Displays(r, m, DisplayContent(r, m))
  {
  }

  lemma {:induction false} KindsMean(r: Rules, text: string)
    ensures SyntheticMessage(r, text) <==> FromHost(r, text)
    ensures AuthoredText(r, text) <==> OwnTurn(r, text)
  {
  }

  // ---------------------------------------------------------------------------------
  // Notices
  // ---------------------------------------------------------------------------------

  function NoticeRow(content: string, code: string, level: string, pending: bool, receipt: Option<string>,
                     missing: seq<string>): Row {
    Row("notice", content, "", code, "", None, 0, "", [], 0, level, [], "", "", false, "", None, pending, "", "",
        receipt, missing, [])
  }

  function ReceiptNotice(receipt: string): Row {
    NoticeRow("", "decision_receipt", "info", false, Some(receipt), [])
  }

  /** What a steer shows: nothing when it is empty or host guidance. */
  function SteerNotice(r: Rules, text: string, unapplied: bool): seq<Row> {
    if text == "" || r.hostGuidance(text) then []
    else if unapplied then [NoticeRow(r.unappliedNotice(text), "unapplied_steer", "warn", false, None, [])]
    else [NoticeRow("\U{E2}\U{86}\U{AA} " + text, "", "", false, None, [])]
  }

  function InterruptedNotice(): Row {
    NoticeRow(
      "This turn was interrupted. Partial output is kept for reference; only completed tool pairs and a " +
      "bounded recovery summary enter the next model turn. " +
      "Inspect the workspace before continuing or reverting changes.",
      "cancelled_turn_display", "info", false, None, [])
  }

  function ReadinessNotice(missing: seq<string>): Row {
    NoticeRow("Task status needs one more check; continue the remaining work.", "final_readiness", "info", true, None,
              missing)
  }

  /** The receipts given, without gaps. */
  function Given(receipts: seq<Option<string>>): seq<string> {
    if receipts == [] then []
    else if receipts[0].Some? then [receipts[0].value] + Given(receipts[1..])
    else Given(receipts[1..])
  }

  /** One notice per receipt, in order. */
  predicate ReceiptsShown(receipts: seq<Option<string>>, rows: seq<Row>) {
    var given := Given(receipts);
    |rows| == |given| && forall k :: 0 <= k < |rows| ==> rows[k] == ReceiptNotice(given[k])
  }

  // ---------------------------------------------------------------------------------
  // The row of a message
  // ---------------------------------------------------------------------------------

  /** A tool call as it is shown: copied, except that a todo_write shows its replayed arguments, and
      only calls of that name, or without id, keep their arguments in the row. */
  ghost predicate CallShown(r: Rules, lk: Lookups, tc: ToolCall, call: RowCall) {
    && call.id == tc.id && call.name == tc.name && call.resolvedName == tc.resolvedName
    && call.capabilityID == tc.capabilityID && call.resolvedReadOnly == tc.resolvedReadOnly
    && call.diff == tc.diff && call.added == tc.added && call.removed == tc.removed
    && exists args, output ::
         && args == (if tc.name == "todo_write" && tc.id in lk.todoArgs then lk.todoArgs[tc.id] else tc.arguments)
         && output == (if tc.id in lk.results then lk.results[tc.id].content else "")
         && call.subject == r.toolSubject(tc.name, args) && call.summary == r.toolSummary(tc.name, args, output)
         && if tc.name == "todo_write" || tc.id == "" then call.arguments == args && !call.argumentsArchived
            else call.arguments == "" && (call.argumentsArchived <==> args != "")
  }

  /** A tool result as it is shown: one that belongs to a call is archived, and of a failure a preview is
      kept as content and error; one without a call stays as it is. */
  predicate ResultShown(r: Rules, m: Message, row: Row) {
    && row.toolCallID == m.toolCallID && row.toolName == m.name && row.execution == m.execution
    && (m.content == "" ==> row.content == "" && !row.toolResultArchived && row.toolResultError == "")
    && (m.content != "" && m.toolCallID == "" ==>
          && row.content == m.content && !row.toolResultArchived
          && row.toolResultError == if r.failed(m.content) then m.content else "")
    && (m.content != "" && m.toolCallID != "" && !r.failed(m.content) ==>
          row.content == "" && row.toolResultArchived && row.toolResultError == "")
    && (m.content != "" && m.toolCallID != "" && r.failed(m.content) ==>
          && row.content == r.clipPreview(r.trim(m.content)) && row.toolResultError == row.content
          && (row.toolResultArchived <==> row.content != m.content))
  }

  /** What resending a displayed user message submits: what replaying the content gives, when that is
      not what is shown; of a message of the memory compiler only a slash command. */
  predicate Resends(r: Rules, m: Message, shown: string, submit: string) {
    var replayed := r.replay(m.content);
    var sends := && m.role == User && shown != m.content && shown != replayed
                 && (r.memoryCompiler(m.content) ==> r.trim(replayed) != "" && r.trim(replayed)[0] == '/');
    submit == if sends then replayed else ""
  }

  predicate PlaysRole(m: Message, role: string) {
    if m.localOnly then role == "assistant"
    else
      match m.role
      case System => role == "system"
      case User => role == "user"
      case Assistant => role == "assistant"
      case Tool => role == "tool"
      case OtherRole(name) => role == name
  }

  /** The row a message shows itself as. */
  ghost predicate OwnRow(r: Rules, index: int, m: Message, lk: Lookups, row: Row) {
    && PlaysRole(m, row.role)
    && (if m.role == Tool && !m.localOnly then ResultShown(r, m, row)
        else
          && row.toolCallID == "" && row.toolName == "" && row.execution == None
          && !row.toolResultArchived && row.toolResultError == ""
          && if m.role == User then Displays(r, m, row.content) else row.content == m.content)
    && (m.role == User ==> Resends(r, m, row.content, row.submitText)) && (m.role != User ==> row.submitText == "")
    && row.checkpointTurn == (if m.role == User && index in lk.checkpoints then Some(lk.checkpoints[index]) else None)
    && row.createdAt == m.createdAt && row.workDurationMs == m.workDurationMs
    && row.serverSearch == r.searchCards(m.serverSearch)
    && row.memoryCitations == (if m.role == Assistant then m.memoryCitations else [])
    && (if m.role == Assistant || m.localOnly then
          && row.reasoning == m.reasoningContent && |row.toolCalls| == |m.toolCalls|
          && forall k :: 0 <= k < |m.toolCalls| ==> CallShown(r, lk, m.toolCalls[k], row.toolCalls[k])
        else row.reasoning == "" && row.toolCalls == [])
    && row.detail == "" && row.code == "" && row.level == "" && !row.pending && row.summary == "" && row.archive == ""
    && row.decisionReceipt == None && row.missing == []
  }

  lemma {:induction false} CallMeans(r: Rules, lk: Lookups, tc: ToolCall)
    ensures CallShown(r, lk, tc, RowCallOf(r, tc, CallArguments(tc, lk.todoArgs), ResultText(lk.results, tc.id)))
  {
  }

  lemma {:induction false} SubmitMeans(r: Rules, m: Message, shown: string)
    ensures Resends(r, m, shown, SubmitText(r, m, shown))
  {
    assert HasPrefix(r.trim(r.replay(m.content)), "/") <==>
           r.trim(r.replay(m.content)) != "" && r.trim(r.replay(m.content))[0] == '/';
  }

  lemma {:induction false} ResultMeans(r: Rules, m: Message, content: string, checkpoint: Option<int>,
                                       calls: seq<RowCall>)
    ensures m.role.Tool? && !m.localOnly ==> ResultShown(r, m, BareRow(r, m, content, checkpoint, calls))
  {
    hide SubmitText;
  }

  lemma {:induction false} RowMeans(r: Rules, index: int, m: Message, lk: Lookups)
    ensures OwnRow(r, index, m, lk, BodyRow(r, index, m, ShownContent(r, m), lk))
  {
    hide DisplayContent, Displays, Resends, SubmitText, CallShown, RowCallOf, CallArguments, ResultText, ResultShown,
      ToolResultText;
    TextsMean(r, m);
    ResultMeans(r, m, ShownContent(r, m), CheckpointOf(index, m, lk),
      if AssistantLike(m) then RowCalls(r, m.toolCalls, lk) else []);
    SubmitMeans(r, m, ShownContent(r, m));
    forall tc ensures CallShown(r, lk, tc,
      RowCallOf(r, tc, CallArguments(tc, lk.todoArgs), ResultText(lk.results, tc.id))) {
      CallMeans(r, lk, tc);
    }
  }

  lemma {:induction false} ReceiptsMean(receipts: seq<Option<string>>)
    ensures ReceiptsShown(receipts, ReceiptRows(receipts))
  {
    if receipts != [] {
      var init, last := receipts[..|receipts| - 1], receipts[|receipts| - 1];
      ReceiptsMean(init);
      GivenLast(receipts);
    }
  }

  lemma {:induction false} GivenLast(receipts: seq<Option<string>>)
    requires receipts != []
    ensures Given(receipts) ==
            Given(receipts[..|receipts| - 1]) +
            if receipts[|receipts| - 1].Some? then [receipts[|receipts| - 1].value] else []
  {
    if |receipts| > 1 {
      GivenLast(receipts[1..]);
      assert receipts[1..][..|receipts| - 2] == receipts[..|receipts| - 1][1..];
    } else {
      assert receipts[1..] == [] && receipts[..0] == [];
    }
  }

  // ---------------------------------------------------------------------------------
  // All rows of a message
  // ---------------------------------------------------------------------------------

  /** The message shows itself, then its receipts, then that it was interrupted, then the planner
      display; a local-only message without anything to see shows no row of its own. */
  ghost predicate MessageShown(r: Rules, index: int, m: Message, lk: Lookups, planned: seq<Row>, rows: seq<Row>) {
    exists row, receipts ::
      && OwnRow(r, index, m, lk, row) && ReceiptsShown(m.decisionReceipts, receipts)
      && rows == (if m.localOnly && r.trim(row.content) == "" && r.trim(row.reasoning) == "" && row.toolCalls == []
                  then [] else [row]) +
                 receipts + (if m.localOnly && m.interrupted then [InterruptedNotice()] else []) + planned
  }

  /** The message stands for a notice alone: a receipt, a pending readiness check, or a steer that was
      not applied. */
  predicate NoticeOnly(r: Rules, m: Message, text: string) {
    m.decisionReceipt != None ||
    (m.localOnly && ((m.readiness.Some? && m.readiness.value.pending) || r.steerText(text).Some?))
  }

  /** Inside an interrupted planner turn only what the user wrote as a turn of its own is shown. */
  predicate Silenced(r: Rules, suppress: bool, m: Message, text: string) {
    suppress && !(m.role == User && OwnTurn(r, text))
  }

  /** A user message that shows itself; it takes the next planner display of its text. */
  ghost predicate ShowsUser(r: Rules, suppress: bool, m: Message, text: string, shown: string) {
    && m.role == User && !NoticeOnly(r, m, text) && !Silenced(r, suppress, m, text)
    && r.steerText(text) == None && !FromHost(r, shown)
  }

  /** What a message that is no notice shows. */
  ghost predicate TurnShown(r: Rules, suppress: bool, index: int, m: Message, lk: Lookups, text: string, shown: string,
                            planned: seq<Row>, rows: seq<Row>) {
    if Silenced(r, suppress, m, text) then rows == []
    else if m.role != User then MessageShown(r, index, m, lk, [], rows)
    else
      match r.steerText(text)
      case Some(steer) => rows == SteerNotice(r, steer, false)
      case None => if FromHost(r, shown) then rows == [] else MessageShown(r, index, m, lk, planned, rows)
  }

  /** The rows of a message that stands for a notice alone. */
  predicate NoticeShown(r: Rules, m: Message, text: string, rows: seq<Row>)
    requires NoticeOnly(r, m, text)
  {
    match m.decisionReceipt
    case Some(receipt) => rows == [ReceiptNotice(receipt)]
    case None =>
      if m.readiness.Some? && m.readiness.value.pending then rows == [ReadinessNotice(m.readiness.value.missing)]
      else rows == SteerNotice(r, r.steerText(text).value, true)
  }

  /** What a message shows, case by case. */
  ghost predicate Shows(r: Rules, suppress: bool, index: int, m: Message, lk: Lookups, text: string, shown: string,
                        planned: seq<Row>, rows: seq<Row>) {
    if NoticeOnly(r, m, text) then NoticeShown(r, m, text, rows)
    else TurnShown(r, suppress, index, m, lk, text, shown, planned, rows)
  }

  /** The planner display the message would take: the oldest one queued under its text. */
  function NextDisplay(queue: seq<PlannerTurn>): seq<Row> {
    if queue == [] then [] else queue[0].messages
  }

  lemma {:induction false} SteersMean(r: Rules, text: string, unapplied: bool)
    ensures SteerRows(r, text, unapplied) ==
            match r.steerText(text)
            case None => None
            case Some(steer) => Some(SteerNotice(r, steer, unapplied))
  {
  }

  lemma {:induction false} LocalOnlyMeans(r: Rules, m: Message, text: string)
    requires text == UserText(r, m)
    ensures LocalOnlyRows(r, m) ==
            if !m.localOnly then None
            else if m.readiness.Some? && m.readiness.value.pending then
              Some([ReadinessNotice(m.readiness.value.missing)])
            else if r.steerText(text).Some? then Some(SteerNotice(r, r.steerText(text).value, true))
            else None
  {
    hide SteerRows, UserText;
    SteersMean(r, text, true);
  }

  /** The conversion of every message, in every state, shows exactly this. */
  lemma {:induction false} ConversionShows(r: Rules, st: Planner, index: int, m: Message, lk: Lookups, text: string,
                                           shown: string)
    requires Wrote(r, m, text) && Displays(r, m, shown)
    ensures Shows(r, st.suppress, index, m, lk, text, shown, NextDisplay(Queue(st, r.displayKey(text))),
              ConvertStep(r, st, index, m, lk).rows)
  {
    hide OwnRow, ReceiptsShown, FromHost, OwnTurn, BodyRow, ReceiptRows, Displays, Wrote, DisplayContent, UserText,
      SyntheticMessage, AuthoredText, HasVisibleContent, BodyRows, MessageShown, SteerRows, LocalOnlyRows, SteerNotice;
    TextIsUnique(r, m, text, shown);
    SteersMean(r, text, false);
    LocalOnlyMeans(r, m, text);
    KindsMean(r, text);
    KindsMean(r, shown);
    if ReachesBody(r, m) && !Swallowed(r, st, m) {
      BodyShown(r, index, m, lk);
      var body := BodyRows(r, index, m, ShownContent(r, m), lk);
      assert body + [] == body;
      assert Queue(st.(suppress := false), r.displayKey(text)) == Queue(st, r.displayKey(text));
      assert MessageShown(r, index, m, lk, NextDisplay(Queue(st, r.displayKey(text))),
          body + NextDisplay(Queue(st, r.displayKey(text))));
      assert MessageShown(r, index, m, lk, [], body);
    }
  }

  lemma {:induction false} TextIsUnique(r: Rules, m: Message, text: string, shown: string)
    requires Wrote(r, m, text) && Displays(r, m, shown)
    ensures text == UserText(r, m) && shown == DisplayContent(r, m)
  {
  }

  /** The message without its planner display. */
  lemma {:induction false} BodyShown(r: Rules, index: int, m: Message, lk: Lookups)
    ensures forall planned ::
              MessageShown(r, index, m, lk, planned, BodyRows(r, index, m, ShownContent(r, m), lk) + planned)
  {
    hide OwnRow, ReceiptsShown, BodyRow, ReceiptRows, DisplayContent;
    RowMeans(r, index, m, lk);
    ReceiptsMean(m.decisionReceipts);
    var row, receipts := BodyRow(r, index, m, ShownContent(r, m), lk), ReceiptRows(m.decisionReceipts);
    assert CANCELLED_ROW == InterruptedNotice();
    forall planned
      ensures MessageShown(r, index, m, lk, planned, BodyRows(r, index, m, ShownContent(r, m), lk) + planned)
    {
      assert OwnRow(r, index, m, lk, row) && ReceiptsShown(m.decisionReceipts, receipts);
    }
  }

  // ---------------------------------------------------------------------------------
  // Planner displays over a transcript
  // ---------------------------------------------------------------------------------

  /** The recorded displays of one user text, in order; displays without text or rows are ignored. */
  function DisplaysFor(r: Rules, turns: seq<PlannerTurn>, key: string): seq<PlannerTurn> {
    if turns == [] then []
    else
      var rest := DisplaysFor(r, turns[1..], key);
      if turns[0].userHash == key && r.trim(key) != "" && turns[0].messages != [] then [turns[0]] + rest else rest
  }

  lemma {:induction false} DisplaysForLast(r: Rules, turns: seq<PlannerTurn>, key: string)
    requires turns != []
    ensures var last := turns[|turns| - 1];
            DisplaysFor(r, turns, key) ==
            DisplaysFor(r, turns[..|turns| - 1], key) +
            if last.userHash == key && r.trim(key) != "" && last.messages != [] then [last] else []
  {
    if |turns| > 1 {
      DisplaysForLast(r, turns[1..], key);
      assert turns[1..][..|turns| - 2] == turns[..|turns| - 1][1..];
    } else {
      assert turns[1..] == [] && turns[..0] == [];
    }
  }

  lemma {:induction false} QueuesMean(r: Rules, turns: seq<PlannerTurn>, key: string)
    ensures Queue(Initial(r, turns), key) == DisplaysFor(r, turns, key)
  {
    if turns != [] {
      QueuesMean(r, turns[..|turns| - 1], key);
      DisplaysForLast(r, turns, key);
    }
  }

  /** The display announces an interrupted turn. */
  predicate Cancels(turn: PlannerTurn) {
    exists k :: 0 <= k < |turn.messages| && turn.messages[k].role == "notice" &&
                turn.messages[k].code == "cancelled_turn_display"
  }

  /** The user starts a turn of its own, which ends an interrupted one. */
  predicate Lifts(r: Rules, m: Message) {
    m.role == User && !NoticeOnly(r, m, UserText(r, m)) && OwnTurn(r, UserText(r, m))
  }

  ghost predicate Takes(r: Rules, suppress: bool, m: Message) {
    ShowsUser(r, suppress, m, UserText(r, m), DisplayContent(r, m))
  }

  function KeyOf(r: Rules, m: Message): string {
    r.displayKey(UserText(r, m))
  }

  /** One message: it takes the oldest display of its text, which decides whether the turn goes on
      unseen, or leaves all displays; only a turn of the user ends an interrupted one. */
  lemma {:induction false} MessageTakes(r: Rules, st: Planner, m: Message, key: string)
    ensures var next := ConvertNext(r, st, m); var queue := Queue(st, key);
            && Queue(next, key) == (if Takes(r, st.suppress, m) && key == KeyOf(r, m) && queue != [] then queue[1..]
                                    else queue)
            && (Takes(r, st.suppress, m) && Queue(st, KeyOf(r, m)) != [] ==>
                  (next.suppress <==> Cancels(Queue(st, KeyOf(r, m))[0])))
            && (!(Takes(r, st.suppress, m) && Queue(st, KeyOf(r, m)) != []) ==>
                  (next.suppress <==> st.suppress && !Lifts(r, m)))
  {
    hide FromHost, OwnTurn, DisplayContent, UserText, SyntheticMessage, AuthoredText;
    KindsMean(r, UserText(r, m));
    KindsMean(r, DisplayContent(r, m));
  }

  /** How many of the first `i` messages have taken a display of `key`. */
  ghost function TakenBefore(r: Rules, turns: seq<PlannerTurn>, msgs: seq<Message>, i: nat, key: string): nat
    requires i <= |msgs|
  {
    if i == 0 then 0
    else
      TakenBefore(r, turns, msgs, i - 1, key) +
      if Takes(r, StateAt(r, turns, msgs, i - 1).suppress, msgs[i - 1]) && KeyOf(r, msgs[i - 1]) == key then 1 else 0
  }

  /** The state in which message `i` of a transcript is converted. */
  function StateAt(r: Rules, turns: seq<PlannerTurn>, msgs: seq<Message>, i: nat): Planner
    requires i <= |msgs|
  {
    ConvertAll(r, Initial(r, turns), msgs[..i])
  }

  lemma {:induction false} StateStep(r: Rules, turns: seq<PlannerTurn>, msgs: seq<Message>, i: nat)
    requires i < |msgs|
    ensures StateAt(r, turns, msgs, i + 1) == ConvertNext(r, StateAt(r, turns, msgs, i), msgs[i])
  {
    assert msgs[..i + 1][..i] == msgs[..i];
  }

  /** First in, first out: a message finds the displays of a text that no earlier message with the same
      text has taken. */
  lemma {:induction false} DisplaysAreTakenInOrder(r: Rules, turns: seq<PlannerTurn>, msgs: seq<Message>, i: nat,
                                                   key: string)
    requires i <= |msgs|
    ensures var all := DisplaysFor(r, turns, key);
            Queue(StateAt(r, turns, msgs, i), key) == all[Min(TakenBefore(r, turns, msgs, i, key), |all|)..]
  {
    hide ConvertNext, Takes;
    if i == 0 {
      QueuesMean(r, turns, key);
    } else {
      DisplaysAreTakenInOrder(r, turns, msgs, i - 1, key);
      StateStep(r, turns, msgs, i - 1);
      MessageTakes(r, StateAt(r, turns, msgs, i - 1), msgs[i - 1], key);
    }
  }

  /** Message `j` shows a display that announces an interrupted turn. */
  ghost predicate Interrupts(r: Rules, turns: seq<PlannerTurn>, msgs: seq<Message>, j: nat)
    requires j < |msgs|
  {
    var key := KeyOf(r, msgs[j]);
    var taken, all := TakenBefore(r, turns, msgs, j, key), DisplaysFor(r, turns, key);
    Takes(r, StateAt(r, turns, msgs, j).suppress, msgs[j]) && taken < |all| && Cancels(all[taken])
  }

  /** Messages are silenced exactly between a message whose planner display announces an interrupted
      turn and the next turn of the user. */
  lemma {:induction false} SilencedIff(r: Rules, turns: seq<PlannerTurn>, msgs: seq<Message>, i: nat)
    requires i <= |msgs|
    ensures StateAt(r, turns, msgs, i).suppress <==>
            exists j: nat :: j < i && Interrupts(r, turns, msgs, j) && forall k :: j < k < i ==> !Lifts(r, msgs[k])
  {
    hide ConvertNext, Takes, Lifts, TakenBefore, Interrupts, Queue, Cancels, KeyOf;
    if i == 0 {
      assert msgs[..0] == [];
    } else {
      SilencedIff(r, turns, msgs, i - 1);
      StateStep(r, turns, msgs, i - 1);
      SilencedStep(r, turns, msgs, i - 1);
      if StateAt(r, turns, msgs, i).suppress && !Interrupts(r, turns, msgs, i - 1) {
        var j: nat :| j < i - 1 && Interrupts(r, turns, msgs, j) && forall k :: j < k < i - 1 ==> !Lifts(r, msgs[k]);
        assert j < i && forall k :: j < k < i ==> !Lifts(r, msgs[k]);
      }
      if j: nat :| j < i && Interrupts(r, turns, msgs, j) && forall k :: j < k < i ==> !Lifts(r, msgs[k]) {
        if j < i - 1 {
          assert j < i - 1 && forall k :: j < k < i - 1 ==> !Lifts(r, msgs[k]);
        }
      }
    }
  }

  lemma {:induction false} SilencedStep(r: Rules, turns: seq<PlannerTurn>, msgs: seq<Message>, i: nat)
    requires i < |msgs|
    ensures StateAt(r, turns, msgs, i + 1).suppress <==>
            Interrupts(r, turns, msgs, i) || (StateAt(r, turns, msgs, i).suppress && !Lifts(r, msgs[i]))
  {
    hide ConvertNext, DisplaysFor, Cancels, ConvertAll;
    var key := KeyOf(r, msgs[i]);
    StateStep(r, turns, msgs, i);
    MessageTakes(r, StateAt(r, turns, msgs, i), msgs[i], key);
    DisplaysAreTakenInOrder(r, turns, msgs, i, key);
  }
}
