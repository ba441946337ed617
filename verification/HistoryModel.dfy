/** Provider messages, history rows and the text rules the conversion rests on. */
module HistoryModel {
  import opened Prelude

  datatype Role = System | User | Assistant | Tool | OtherRole(name: string)

  function RoleName(role: Role): string {
    match role
    case System => "system"
    case User => "user"
    case Assistant => "assistant"
    case Tool => "tool"
    case OtherRole(name) => name
  }

  datatype ToolCall = ToolCall(
    id: string, name: string, arguments: string, resolvedName: string, capabilityID: string,
    resolvedReadOnly: Option<bool>, diff: string, added: int, removed: int)

  datatype Recovery = Recovery(pending: bool, missing: seq<string>)

  /** provider.Message, restricted to the fields the history conversion reads. */
  datatype Message = Message(
    role: Role, content: string, rawContent: string, reasoningContent: string,
    toolCalls: seq<ToolCall>, serverSearch: seq<string>, toolCallID: string, name: string,
    memoryCitations: seq<string>, workDurationMs: int, createdAt: int, localOnly: bool,
    decisionReceipt: Option<string>, decisionReceipts: seq<Option<string>>,
    interrupted: bool, readiness: Option<Recovery>, execution: Option<string>)

  /** HistoryToolCall. */
  datatype RowCall = RowCall(
    id: string, name: string, arguments: string, resolvedName: string, capabilityID: string,
    resolvedReadOnly: Option<bool>, subject: string, summary: string, diff: string,
    added: int, removed: int, argumentsArchived: bool)

  /** HistoryMessage. */
  datatype Row = Row(
    role: string, content: string, detail: string, code: string, submitText: string,
    checkpointTurn: Option<int>, createdAt: int, reasoning: string,
    memoryCitations: seq<string>, workDurationMs: int, level: string,
    toolCalls: seq<RowCall>, toolCallID: string, toolName: string,
    toolResultArchived: bool, toolResultError: string, execution: Option<string>,
    pending: bool, summary: string, archive: string, decisionReceipt: Option<string>,
    missing: seq<string>, serverSearch: seq<string>)

  const EMPTY_ROW := Row(
    "", "", "", "", "", None, 0, "", [], 0, "", [], "", "", false, "", None,
    false, "", "", None, [], [])

  /** plannerDisplayTurn. */
  datatype PlannerTurn = PlannerTurn(userHash: string, messages: seq<Row>)

  datatype Todo = Todo(content: string, status: string, level: int)

  /** The pure text helpers of internal/agent, internal/control and internal/evidence, and
      the per-session display resolver.  Nothing is assumed about any of them; what the
      theorems need about classification is derived from the definitions below. */
  datatype Rules = Rules(
    trim: string -> string,
    stripTransient: string -> string,
    previewText: string -> string,
    steerText: string -> Option<string>,
    hostGuidance: string -> bool,
    syntheticPrefix: string -> bool,
    planApproved: string,
    resolve: string -> string,
    replay: string -> string,
    collapsePaste: string -> string,
    memoryCompiler: string -> bool,
    displayKey: string -> string,
    unappliedNotice: string -> string,
    searchCards: seq<string> -> seq<string>,
    toolSubject: (string, string) -> string,
    toolSummary: (string, string, string) -> string,
    failed: string -> bool,
    clipPreview: string -> string,
    todosOf: string -> seq<Todo>,
    normalizeTodos: seq<Todo> -> seq<Todo>,
    advanceTodos: (string, seq<Todo>) -> Option<seq<Todo>>,
    renderTodos: seq<Todo> -> Option<string>)

  /** agent.UserMessageText. */
  function UserText(r: Rules, m: Message): string {
    if m.rawContent != "" then r.trim(m.rawContent) else r.previewText(m.content)
  }

  /** agent.ReplaySteerText: None when the text is no steer, Some("") when it is hidden. */
  function ReplaySteerText(r: Rules, content: string): Option<string> {
    match r.steerText(content)
    case None => None
    case Some(text) => if r.hostGuidance(text) then Some("") else Some(text)
  }

  /** agent.IsSyntheticUserText. */
  predicate SyntheticText(r: Rules, content: string) {
    var trimmed := r.trim(r.stripTransient(content));
    || r.hostGuidance(trimmed)
    || (r.steerText(content).Some? && r.hostGuidance(r.steerText(content).value))
    || r.syntheticPrefix(trimmed)
  }

  /** control.IsSyntheticUserMessage. */
  predicate SyntheticMessage(r: Rules, content: string) {
    r.trim(r.stripTransient(content)) == r.planApproved || SyntheticText(r, content)
  }

  /** agent.IsUserAuthoredTurn. */
  predicate AuthoredText(r: Rules, content: string) {
    && r.trim(r.stripTransient(content)) != ""
    && !SyntheticText(r, content)
    && r.steerText(content).None?
  }

  predicate Authored(r: Rules, m: Message) {
    AuthoredText(r, UserText(r, m))
  }

  predicate Steer(r: Rules, m: Message) {
    r.steerText(UserText(r, m)).Some?
  }

  /** historyUserDisplayContent. */
  function DisplayContent(r: Rules, m: Message): string {
    var resolved := r.trim(r.resolve(m.content));
    var fallback := r.trim(r.replay(m.content));
    if resolved != "" && resolved != fallback then resolved
    else r.collapsePaste(if m.rawContent == "" then fallback else UserText(r, m))
  }

  predicate SyntheticDisplay(r: Rules, m: Message) {
    SyntheticMessage(r, DisplayContent(r, m))
  }

  /** isVisibleHistoryUser. */
  predicate VisibleUser(r: Rules, m: Message) {
    m.role.User? && !Steer(r, m) && !SyntheticDisplay(r, m)
  }
}
