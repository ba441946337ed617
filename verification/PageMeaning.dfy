/** What a page, its cursor, its entries and their content refs say, and how a source answers
    cursors and refs that another source issued. */
module PageMeaning {
  import opened Prelude
  import opened HistoryModel
  import opened Convert
  import opened HistorySource
  import opened Entries
  import opened Cuts
  import opened PageSpec
  import opened ContentRefs
  import Chunks
  import ConvertMeaning
  import EntryIds
  import EventRows
  import Pager

  // ---------------------------------------------------------------------------------
  // Turn range
  // ---------------------------------------------------------------------------------

  predicate HasTurn(entries: seq<Entry>, turn: int) {
    turn > 0 && exists k :: 0 <= k < |entries| && entries[k].turn == turn
  }

  ghost predicate IsTurnRange(entries: seq<Entry>, start: int, end: int) {
    if exists turn :: HasTurn(entries, turn) then
      && HasTurn(entries, start) && HasTurn(entries, end)
      && forall turn :: HasTurn(entries, turn) ==> start <= turn <= end
    else start == 0 && end == 0
  }

  /** The turn range is the least and the greatest positive turn of the entries, 0 without one. */
  lemma {:induction false} TurnsAreBounds(entries: seq<Entry>)
    ensures IsTurnRange(entries, StartTurn(entries), EndTurn(entries))
  {
    if entries != [] {
      var init, last := entries[..|entries| - 1], entries[|entries| - 1].turn;
      TurnsAreBounds(init);
      forall turn ensures HasTurn(entries, turn) <==> HasTurn(init, turn) || (turn > 0 && turn == last) {
        TurnStep(entries, turn);
      }
    }
  }

  lemma {:induction false} TurnStep(entries: seq<Entry>, turn: int)
    requires entries != []
    ensures HasTurn(entries, turn) <==>
            HasTurn(entries[..|entries| - 1], turn) || (turn > 0 && turn == entries[|entries| - 1].turn)
  {
    var init := entries[..|entries| - 1];
    if HasTurn(init, turn) {
      var k :| 0 <= k < |init| && init[k].turn == turn;
      assert entries[k].turn == turn;
    }
    if HasTurn(entries, turn) && turn != entries[|entries| - 1].turn {
      var k :| 0 <= k < |entries| && entries[k].turn == turn;
      assert init[k].turn == turn;
    }
  }

  // ---------------------------------------------------------------------------------
  // Pages
  // ---------------------------------------------------------------------------------

  /** The page names its source; a stale page holds nothing else. */
  ghost predicate Tells(src: Source, page: Page) {
    && page.revision == src.revision && page.revKnown == src.revKnown && page.digest == src.digest
    && page.totalTurns == (if page.stale then 0 else src.totalTurns)
    && (page.stale ==> page.entries == [] && !page.hasOlder)
    && IsTurnRange(page.entries, page.startTurn, page.endTurn)
    && (if page.hasOlder then page.next.Encoded? else page.next.NoCursor?)
  }

  /** The cursor of a page names the source and a message below the bound. */
  ghost predicate PointsBelow(src: Source, page: Page, bound: int) {
    page.hasOlder ==>
      && page.next.Encoded? && page.next.cursor.v == 1
      && page.next.cursor.revision == src.revision && page.next.cursor.revKnown == src.revKnown
      && page.next.cursor.digest == src.digest
      && 0 < page.next.cursor.before < bound
  }

  /** The message a request asks to stop at. */
  function Asked(src: Source, req: Request): int {
    if req.cursor.NoCursor? || Undecodable(req.cursor) then src.total
    else if req.cursor.Blank? then 0
    else Min(req.cursor.cursor.before, src.total)
  }

  /** A cursor text that decodes to no cursor: garbage, another version, a negative position. */
  predicate Undecodable(text: CursorText) {
    text.Garbage? || (text.Encoded? && (text.cursor.v != 1 || text.cursor.before < 0))
  }

  lemma {:induction false} PageTells(s: Session, src: Source, req: Request)
    requires src.total == |s.msgs| == |src.turns| && req.turns > 0
    ensures Tells(src, SlicePage(s, src, req)) && PointsBelow(src, SlicePage(s, src, req), Asked(src, req))
    ensures !SlicePage(s, src, req).stale && Asked(src, req) > 0 ==>
              SlicePage(s, src, req).entries == PageEntries(s, src, Asked(src, req), req)
    ensures !SlicePage(s, src, req).stale && Asked(src, req) <= 0 ==> SlicePage(s, src, req).entries == []
  {
    hide PageEntries, PageStart, StartTurn, EndTurn, IdentityMatches;
    TurnsAreBounds(SlicePage(s, src, req).entries);
  }

  /** A request without a cursor is never stale. */
  lemma {:induction false} FirstRequestIsServed(s: Session, src: Source, req: Request)
    requires src.total == |s.msgs| == |src.turns| && req.turns > 0 && req.cursor.NoCursor?
    ensures !SlicePage(s, src, req).stale
  {
    hide PageEntries, PageStart, StartTurn, EndTurn;
  }

  /** A cursor that cannot be decoded asks for the latest page. */
  lemma {:induction false} UndecodableIsLatest(s: Session, src: Source, req: Request)
    requires src.total == |s.msgs| == |src.turns| && req.turns > 0 && Undecodable(req.cursor)
    ensures SlicePage(s, src, req) == SlicePage(s, src, req.(cursor := NoCursor))
    ensures !SlicePage(s, src, req).stale
  {
    hide PageFrom, CutEntries, CutStart, WindowParts, WindowStart;
    assert SlicePage(s, src, req) == SlicePage(s, src, req.(cursor := NoCursor));
    FirstRequestIsServed(s, src, req.(cursor := NoCursor));
  }

  /** A source answers a cursor issued by another source (or by itself) as stale exactly when digest,
      knowledge of the revision, or revision differ; an unknown revision counts as 0 in the cursor but
      not in the source.  Otherwise it serves the page that ends where the cursor points. */
  lemma {:induction false} ForeignCursorStaleIff(t: Session, a: Source, earlier: Request, s: Session, b: Source,
                                                 req: Request)
    requires a.total == |t.msgs| == |a.turns| && earlier.turns > 0 && SlicePage(t, a, earlier).hasOlder
    requires b.total == |s.msgs| == |b.turns| && req.turns > 0 && req.cursor == SlicePage(t, a, earlier).next
    ensures SlicePage(s, b, req).stale <==>
            a.digest != b.digest || a.revKnown != b.revKnown || b.revision != (if a.revKnown then a.revision else 0)
    ensures !SlicePage(s, b, req).stale && b.total > 0 ==>
              SlicePage(s, b, req).entries == PageEntries(s, b, Min(req.cursor.cursor.before, b.total), req)
  {
    hide PageEntries, PageStart, StartTurn, EndTurn;
    PageTells(t, a, earlier);
  }

  /** A cursor of blanks counts as one of an unknown revision 0 without digest that points at the start:
      it is stale, or gets an empty page. */
  lemma {:induction false} BlankCursorStaleIff(s: Session, src: Source, req: Request)
    requires src.total == |s.msgs| == |src.turns| && req.turns > 0 && req.cursor.Blank?
    ensures SlicePage(s, src, req).stale <==> src.revKnown || src.revision != 0 || src.digest != ""
    ensures SlicePage(s, src, req).entries == []
  {
    hide PageEntries, PageStart, StartTurn, EndTurn;
  }

  /** The oldest message a page may reach is the first one within the turn budget from which the window
      spans at most 32 MiB, or the newest message alone. */
  lemma {:induction false} WindowStartIsFirst(src: Source, hi: nat, budget: int, span: (int, int) -> int)
    requires 0 < hi <= |src.turns| && budget > 0 && src.windowBytes == Some(span)
    ensures var lo, first := WindowStart(src, hi, budget), TurnStart(src.turns, hi, budget);
            && first <= lo < hi && (lo == hi - 1 || span(lo, hi) <= 32 * 1024 * 1024)
            && forall k :: first <= k < lo ==> span(k, hi) > 32 * 1024 * 1024
  {
    TurnStartBelow(src.turns, hi, budget);
    SpanStartIsFirst(span, TurnStart(src.turns, hi, budget), hi);
  }

  lemma {:induction false} SpanStartIsFirst(span: (int, int) -> int, from: nat, hi: nat)
    requires from < hi
    ensures var lo := SpanStart(span, from, hi);
            && from <= lo < hi && (lo == hi - 1 || span(lo, hi) <= 32 * 1024 * 1024)
            && forall k :: from <= k < lo ==> span(k, hi) > 32 * 1024 * 1024
    decreases hi - from
  {
    if from < hi - 1 && span(from, hi) > COLD_WINDOW_BYTES {
      SpanStartIsFirst(span, from + 1, hi);
    }
  }

  // ---------------------------------------------------------------------------------
  // Entries
  // ---------------------------------------------------------------------------------

  /** An entry of a page names its message, the turn of the message and, in a session whose id holds
      no colon, parses back to the message and the position of its row among the rows of the message;
      it shows that row with its oversized fields shortened. */
  lemma {:induction false} EntryTells(s: Session, src: Source, req: Request, e: Entry)
    returns (lo: nat, hi: nat, i: nat, sub: nat)
    requires src.total == |s.msgs| == |src.turns| && req.turns > 0 && e in SlicePage(s, src, req).entries
    ensures lo <= i < hi <= |s.msgs| && sub < |WindowRows(s, lo, hi, i)|
    ensures e.order == i && e.turn == src.turns[i]
    ensures EntryIds.Parse(e.entryID) == EntryIds.Message(i, sub) <==> ':' !in src.sessionID
    ensures ':' !in src.sessionID ==> EntryIds.SessionOf(e.entryID) == src.sessionID
    ensures Shortened(WindowRows(s, lo, hi, i)[sub], e.message)
    ensures forall ref :: ref in e.refs ==> RefTells(src, e.entryID, WindowRows(s, lo, hi, i)[sub], ref)
    ensures forall field, id, value ::
              Named(WindowRows(s, lo, hi, i)[sub], field, id, value) && |value| > FULL_BYTES ==>
              RefFor(src, e.entryID, field, id, value) in e.refs
  {
    hide WindowRows, SlicePage, EntryIds.Parse, EntryIds.Format, EntryIds.SessionOf, Shortened, RefTells, Named, RefFor;
    lo, hi, i, sub := EntryOfPage(s, src, req, e);
    var row := WindowRows(s, lo, hi, i)[sub];
    EntryIds.ParseFormatIff(src.sessionID, src.epoch, i, sub);
    RowIsShortened(src, e.entryID, i, row);
    forall ref | ref in e.refs ensures RefTells(src, e.entryID, row, ref) {
      RefIsTold(src, e.entryID, i, row, ref);
    }
    forall field, id, value | Named(row, field, id, value) && |value| > FULL_BYTES
      ensures RefFor(src, e.entryID, field, id, value) in e.refs
    {
      LongFieldHasRef(src, e.entryID, i, row, field, id, value);
    }
  }

  /** The longest text shown in full, and the longest preview, in bytes. */
  const FULL_BYTES := 65536
  const PREVIEW := 4096

  /** `shown` is `value` or, when it is too long, a preview of it. */
  predicate ShownFor(value: string, shown: string) {
    if |value| <= FULL_BYTES then shown == value
    else |shown| <= PREVIEW && shown == value[..|shown|]
  }

  /** Every text field is shown as ShownFor says, everything else as it is. */
  predicate Shortened(row: Row, m: Row) {
    && ShownFor(row.content, m.content) && ShownFor(row.reasoning, m.reasoning)
    && ShownFor(row.submitText, m.submitText) && ShownFor(row.detail, m.detail) && ShownFor(row.code, m.code)
    && ShownFor(row.summary, m.summary) && ShownFor(row.archive, m.archive)
    && ShownFor(row.toolResultError, m.toolResultError)
    && |m.toolCalls| == |row.toolCalls|
    && (forall k :: 0 <= k < |row.toolCalls| ==> CallShortened(row.toolCalls[k], m.toolCalls[k]))
    && m == row.(content := m.content, reasoning := m.reasoning, submitText := m.submitText, detail := m.detail,
                 code := m.code, summary := m.summary, archive := m.archive, toolResultError := m.toolResultError,
                 toolCalls := m.toolCalls)
  }

  predicate CallShortened(call: RowCall, c: RowCall) {
    && ShownFor(call.arguments, c.arguments) && ShownFor(call.subject, c.subject)
    && ShownFor(call.summary, c.summary) && ShownFor(call.diff, c.diff)
    && c == call.(arguments := c.arguments, subject := c.subject, summary := c.summary, diff := c.diff)
  }

  lemma {:induction false} InlineIsShown(value: string)
    ensures ShownFor(value, Inline(value))
  {
  }

  lemma {:induction false} RowIsShortened(src: Source, id: string, i: nat, row: Row)
    requires i < |src.turns|
    ensures Shortened(row, NewEntry(src, id, i, row).message)
  {
    hide Inline, ShownFor, RowRefs, CallsRefs;
    forall value ensures ShownFor(value, Inline(value)) {
      InlineIsShown(value);
    }
  }

  /** The text a field of a row stands for, told by the name of the field; for a field of a tool call
      the text of some call with the id. */
  ghost predicate Named(row: Row, field: Field, toolCallID: string, value: string) {
    match field
    case Content => toolCallID == "" && value == row.content
    case Reasoning => toolCallID == "" && value == row.reasoning
    case Submit => toolCallID == "" && value == row.submitText
    case Detail => toolCallID == "" && value == row.detail
    case Code => toolCallID == "" && value == row.code
    case Summary => toolCallID == "" && value == row.summary
    case Archive => toolCallID == "" && value == row.archive
    case ResultError => toolCallID == "" && value == row.toolResultError
    case _ => exists k :: IsCall(row, k, toolCallID) && IsCallText(row.toolCalls[k], field, value)
  }

  predicate IsCall(row: Row, k: int, toolCallID: string) {
    0 <= k < |row.toolCalls| && row.toolCalls[k].id == toolCallID
  }

  predicate IsCallText(call: RowCall, field: Field, value: string) {
    match field
    case ToolArguments => value == call.arguments
    case ToolSubject => value == call.subject
    case ToolSummary => value == call.summary
    case ToolDiff => value == call.diff
    case _ => false
  }

  /** A ref names the version of its source, its entry, and a field of the row that is too long to be
      shown in full, with its size and the number of its chunks. */
  ghost predicate RefTells(src: Source, id: string, row: Row, ref: ContentRef) {
    && ref.entryID == id && ref.revision == src.revision && ref.revKnown == src.revKnown && ref.digest == src.digest
    && exists value :: Named(row, ref.field, ref.toolCallID, value) && |value| == ref.size > FULL_BYTES &&
                       ref.chunks == Chunks.ChunkCount(value)
  }

  lemma {:induction false} NamedIsField(row: Row, field: Field, toolCallID: string, value: string)
    ensures IsField(row, field, toolCallID, value) <==> Named(row, field, toolCallID, value)
  {
    assert field in ROW_FIELDS <==>
        (field.Content? || field.Reasoning? || field.Submit? || field.Detail? || field.Code? || field.Summary? ||
         field.Archive? || field.ResultError?) by {
      FieldKinds(field);
    }
    FieldKinds(field);
  }

  lemma {:induction false} FieldKinds(field: Field)
    ensures field in ROW_FIELDS <==>
            (field.Content? || field.Reasoning? || field.Submit? || field.Detail? || field.Code? || field.Summary? ||
             field.Archive? || field.ResultError?)
    ensures field in CALL_FIELDS <==>
            (field.ToolArguments? || field.ToolSubject? || field.ToolSummary? || field.ToolDiff?)
  {
    assert ROW_FIELDS[0] == Content && ROW_FIELDS[1] == Reasoning && ROW_FIELDS[2] == Submit;
    assert ROW_FIELDS[3] == Detail && ROW_FIELDS[4] == Code && ROW_FIELDS[5] == Summary;
    assert ROW_FIELDS[6] == Archive && ROW_FIELDS[7] == ResultError;
    assert CALL_FIELDS[0] == ToolArguments && CALL_FIELDS[1] == ToolSubject;
    assert CALL_FIELDS[2] == ToolSummary && CALL_FIELDS[3] == ToolDiff;
  }

  lemma {:induction false} RefIsTold(src: Source, id: string, i: nat, row: Row, ref: ContentRef)
    requires i < |src.turns| && ref in NewEntry(src, id, i, row).refs
    ensures RefTells(src, id, row, ref)
  {
    hide IsField, Named, NewEntry;
    RefsAreFields(src, id, i, row, ref);
    var value :| IsField(row, ref.field, ref.toolCallID, value) &&
             ref == ContentRef(id, ref.field, |value|, Chunks.ChunkCount(value), ref.toolCallID, src.revision,
               src.revKnown, src.digest) &&
             |value| > Chunks.INLINE_THRESHOLD;
    NamedIsField(row, ref.field, ref.toolCallID, value);
  }

  function RefFor(src: Source, id: string, field: Field, toolCallID: string, value: string): ContentRef {
    ContentRef(id, field, |value|, Chunks.ChunkCount(value), toolCallID, src.revision, src.revKnown, src.digest)
  }

  /** No text is lost: a field of the row that is too long to be shown in full has a ref. */
  lemma {:induction false} LongFieldHasRef(src: Source, id: string, i: nat, row: Row, field: Field,
                                           toolCallID: string, value: string)
    requires i < |src.turns| && Named(row, field, toolCallID, value) && |value| > FULL_BYTES
    ensures RefFor(src, id, field, toolCallID, value) in NewEntry(src, id, i, row).refs
  {
    hide CallsRefs, RowRefs, Chunks.ChunkCount;
    RowRefsJoined(src, id, row);
    if k :| IsCall(row, k, toolCallID) && IsCallText(row.toolCalls[k], field, value) {
      CallFieldHasRef(src, id, row.toolCalls[k], field, value);
      CallRefsJoin(src, id, row.toolCalls, k, RefFor(src, id, field, toolCallID, value));
    }
  }

  lemma {:induction false} CallFieldHasRef(src: Source, id: string, call: RowCall, field: Field, value: string)
    requires IsCallText(call, field, value) && |value| > FULL_BYTES
    ensures RefFor(src, id, field, call.id, value) in CallRefs(src, id, call, |CALL_FIELDS|)
  {
    hide Chunks.ChunkCount;
    assert CALL_FIELDS[0] == ToolArguments && CALL_FIELDS[1] == ToolSubject;
    assert CALL_FIELDS[2] == ToolSummary && CALL_FIELDS[3] == ToolDiff;
    var a, b := RefOf(src, id, ToolArguments, call.id, call.arguments),
      RefOf(src, id, ToolSubject, call.id, call.subject);
    var c, d := RefOf(src, id, ToolSummary, call.id, call.summary), RefOf(src, id, ToolDiff, call.id, call.diff);
    assert CallRefs(src, id, call, 1) == [] + a && CallRefs(src, id, call, 2) == [] + a + b;
    assert CallRefs(src, id, call, 3) == [] + a + b + c;
    assert CallRefs(src, id, call, 4) == [] + a + b + c + d;
  }

  lemma {:induction false} CallRefsJoin(src: Source, id: string, calls: seq<RowCall>, k: int, ref: ContentRef)
    requires 0 <= k < |calls| && ref in CallRefs(src, id, calls[k], |CALL_FIELDS|)
    ensures ref in CallsRefs(src, id, calls)
  {
    hide CallRefs;
    if k < |calls| - 1 {
      CallRefsJoin(src, id, calls[..|calls| - 1], k, ref);
    }
  }

  /** All text of a tool call. */
  function CallText(c: RowCall): string {
    c.id + c.name + c.arguments + c.subject + c.summary + c.diff
  }

  function CallsText(calls: seq<RowCall>): string {
    if calls == [] then "" else CallsText(calls[..|calls| - 1]) + CallText(calls[|calls| - 1])
  }

  /** All text a row shows. */
  function TextShown(m: Row): string {
    m.role + m.content + m.reasoning + m.submitText + m.detail + m.code + m.summary + m.archive + m.toolCallID +
    m.toolName + m.toolResultError + CallsText(m.toolCalls)
  }

  lemma {:induction false} CallsCost(calls: seq<RowCall>)
    ensures CallBytes(calls) == |CallsText(calls)|
  {
    if calls != [] {
      CallsCost(calls[..|calls| - 1]);
    }
  }

  /** An entry costs the byte budget the length of the text it shows. */
  lemma {:induction false} EntryCost(e: Entry)
    ensures InlineBytes(e) == |TextShown(e.message)|
  {
    CallsCost(e.message.toolCalls);
  }

  // ---------------------------------------------------------------------------------
  // Fetching a field
  // ---------------------------------------------------------------------------------

  /** The text a row answers for a field: its own, or that of its first call with the id. */
  ghost predicate Gives(row: Row, field: Field, toolCallID: string, answer: Option<string>) {
    match field
    case Content => answer == Some(row.content)
    case Reasoning => answer == Some(row.reasoning)
    case Submit => answer == Some(row.submitText)
    case Detail => answer == Some(row.detail)
    case Code => answer == Some(row.code)
    case Summary => answer == Some(row.summary)
    case Archive => answer == Some(row.archive)
    case ResultError => answer == Some(row.toolResultError)
    case _ =>
      match answer
      case None => forall k :: !IsCall(row, k, toolCallID)
      case Some(value) =>
        exists k :: IsCall(row, k, toolCallID) && IsCallText(row.toolCalls[k], field, value) &&
                    forall j :: j < k ==> !IsCall(row, j, toolCallID)
  }

  lemma {:induction false} FieldValueGives(row: Row, field: Field, toolCallID: string)
    ensures Gives(row, field, toolCallID, FieldValue(row, field, toolCallID))
  {
    FieldKinds(field);
    if field in CALL_FIELDS {
      FirstCallGives(row.toolCalls, field, toolCallID);
    }
  }

  lemma {:induction false} FirstCallGives(calls: seq<RowCall>, field: Field, toolCallID: string)
    requires field in CALL_FIELDS
    ensures match ContentRefs.CallField(calls, field, toolCallID)
            case None => forall k :: 0 <= k < |calls| ==> calls[k].id != toolCallID
            case Some(value) =>
              exists k :: 0 <= k < |calls| && calls[k].id == toolCallID && IsCallText(calls[k], field, value) &&
                          forall j :: 0 <= j < k ==> calls[j].id != toolCallID
  {
    if calls != [] && calls[0].id != toolCallID {
      FirstCallGives(calls[1..], field, toolCallID);
      match ContentRefs.CallField(calls[1..], field, toolCallID)
      case None =>
      case Some(value) =>
        var k :| 0 <= k < |calls[1..]| && calls[1..][k].id == toolCallID && IsCallText(calls[1..][k], field, value) &&
                 forall j :: 0 <= j < k ==> calls[1..][j].id != toolCallID;
        assert calls[k + 1] == calls[1..][k];
        forall j | 0 <= j < k + 1 ensures calls[j].id != toolCallID {
          assert j > 0 ==> calls[j] == calls[1..][j - 1];
        }
    }
  }

  /** The two sources are not the same version of a transcript; the cursors and refs that `a` issued
      carry a revision only when it is known. */
  predicate Differ(a: Source, b: Source) {
    a.digest != b.digest || a.revKnown != b.revKnown || b.revision != (if a.revKnown then a.revision else 0)
  }

  /** A source re-resolves a ref that another source (or itself) issued, unless the versions differ or
      the message or its row is gone; then the ref is stale. */
  lemma {:induction false} ForeignRefStaleIff(t: Session, a: Source, earlier: Request, e: Entry, ref: ContentRef,
                                              s: Session, b: Source, index: int, sub: int)
    requires a.total == |t.msgs| == |a.turns| && earlier.turns > 0 && b.total == |s.msgs|
    requires e in SlicePage(t, a, earlier).entries && ref in e.refs
    ensures AnswerFor(s, b, index, sub, ref).Stale? <==>
            || a.digest != b.digest || a.revKnown != b.revKnown
            || b.revision != (if a.revKnown then a.revision else 0)
            || index < 0 || index >= b.total || sub < 0 || sub >= |LoneRows(s, index)|
  {
    hide LoneRows, SlicePage, EntryIds.Parse, EntryIds.SessionOf, WindowRows, Shortened, Named, FieldValue;
    var lo, hi, i, row := EntryTells(t, a, earlier, e);
  }

  /** The text that row `sub` of message `i`, converted on its own, gives for the field of the ref. */
  ghost predicate GivenBy(s: Session, i: int, sub: int, ref: ContentRef, value: string) {
    0 <= i < |s.msgs| && 0 <= sub < |LoneRows(s, i)| &&
    Gives(LoneRows(s, i)[sub], ref.field, ref.toolCallID, Some(value))
  }

  /** A content request with a ref that a page of `a` issued is served by `b`, and not called stale,
      exactly when it is for the same session in the same version, and the row it names still gives
      its field in the size the ref tells.  It is then served the chunk of that text, and a stale
      answer holds no data. */
  lemma {:induction false} RefServedIff(t: Session, a: Source, earlier: Request, e: Entry, ref: ContentRef, s: Session,
                                        b: Source, events: Option<seq<Row>>, n: int)
    returns (i: nat, sub: nat)
    requires a.total == |t.msgs| == |a.turns| && earlier.turns > 0 && b.total == |s.msgs| && ':' !in a.sessionID
    requires e in SlicePage(t, a, earlier).entries && ref in e.refs
    ensures e.order == i && EntryIds.Parse(e.entryID) == EntryIds.Message(i, sub)
    ensures var chunk := ContentFor(s, b, events, ref, n);
            && (!chunk.stale <==>
                a.sessionID == b.sessionID && !Differ(a, b) &&
                exists value :: GivenBy(s, i, sub, ref, value) && |value| == ref.size)
            && (chunk.stale ==> chunk.data == "" && chunk.chunks == 0 && !chunk.done)
            && (!chunk.stale ==> forall value :: GivenBy(s, i, sub, ref, value) ==> ServesChunk(chunk, value, n))
            && chunk.chunk == Max(n, 0)
  {
    hide LoneRows, SlicePage, EntryIds.Parse, EntryIds.SessionOf, WindowRows, Shortened, Named, FieldValue, Gives,
      Chunks.ChunkCount, Chunks.ChunkData;
    var lo, hi;
    lo, hi, i, sub := EntryTells(t, a, earlier, e);
    if i < |s.msgs| && sub < |LoneRows(s, i)| {
      var row := LoneRows(s, i)[sub];
      FieldValueGives(row, ref.field, ref.toolCallID);
      forall value ensures Gives(row, ref.field, ref.toolCallID, Some(value)) <==>
                           FieldValue(row, ref.field, ref.toolCallID) == Some(value)
      {
        GivesOne(row, ref.field, ref.toolCallID, Some(value));
      }
    }
  }

  /** A row number that is negative, which no page issues, is taken for the first row of the first
      message. */
  lemma {:induction false} NegativeRowIsFirst(s: Session, src: Source, events: Option<seq<Row>>, ref: ContentRef)
    requires src.total == |s.msgs| && EntryIds.Parse(ref.entryID).LegacyRow? && EntryIds.Parse(ref.entryID).row < 0
    ensures AnswerTo(s, src, events, ref) == AnswerFor(s, src, 0, 0, ref)
  {
    hide AnswerFor;
  }

  /** A session whose id holds a colon loses its long texts: a content request with any ref of its pages
      is answered at once as done, without data, and not as stale. */
  lemma {:induction false} ColonRefsAreLost(t: Session, a: Source, earlier: Request, e: Entry, ref: ContentRef,
                                            s: Session, b: Source, events: Option<seq<Row>>, n: int)
    requires a.total == |t.msgs| == |a.turns| && earlier.turns > 0 && b.total == |s.msgs| && ':' in a.sessionID
    requires e in SlicePage(t, a, earlier).entries && ref in e.refs
    ensures ContentFor(s, b, events, ref, n) == Chunk(Max(n, 0), 0, "", true, false)
  {
    hide SlicePage, WindowRows, EntryIds.Format, EntryIds.Split, EntryIds.Tail, RefTells, NewEntry;
    var lo, hi, i, sub := EntryOfPage(t, a, earlier, e);
    var row := WindowRows(t, lo, hi, i)[sub];
    var id := EntryIds.Format(a.sessionID, a.epoch, 'm', i, sub);
    RefIsTold(a, id, i, row, ref);
    RefNamesEntry(a, id, row, ref);
    EntryIds.SplitOfColonFormat(a.sessionID, a.epoch, 'm', i, sub);
  }

  /** Chunk `n` of a text, 0 for a negative `n`, with the number of chunks and whether it is the last. */
  ghost predicate ServesChunk(chunk: Chunk, value: string, n: int) {
    && chunk.chunks == Chunks.ChunkCount(value) && chunk.data == Chunks.ChunkData(value, Max(n, 0))
    && (chunk.done <==> n >= Chunks.ChunkCount(value) - 1)
  }

  lemma {:induction false} GivesOne(row: Row, field: Field, toolCallID: string, answer: Option<string>)
    ensures Gives(row, field, toolCallID, answer) <==> answer == FieldValue(row, field, toolCallID)
  {
    FieldValueGives(row, field, toolCallID);
  }

  // ---------------------------------------------------------------------------------
  // Event-format sessions
  // ---------------------------------------------------------------------------------

  /** The event pager answers a cursor of another version of the rows as stale exactly when the digests
      differ; nothing else of the cursor is compared. */
  lemma {:induction false} ForeignEventCursorStaleIff(a: Source, rowsA: seq<Row>, earlier: Request, b: Source,
                                                      rowsB: seq<Row>, req: Request)
    requires a.total == |rowsA| == |a.turns| && earlier.turns > 0 && b.total == |rowsB| == |b.turns| && req.turns > 0
    requires EventRows.EventSlice(a, rowsA, earlier).hasOlder
    requires req.cursor == EventRows.EventSlice(a, rowsA, earlier).next
    ensures EventRows.EventSlice(b, rowsB, req).stale <==> a.digest != b.digest
    ensures EventRows.EventSlice(b, rowsB, req).stale ==> EventRows.EventSlice(b, rowsB, req).entries == []
  {
  }

  /** A page of the event pager names the digest only; its revision is 0 and unknown. */
  lemma {:induction false} EventPageTells(src: Source, rows: seq<Row>, req: Request)
    requires src.total == |rows| == |src.turns| && req.turns > 0
    ensures var page := EventRows.EventSlice(src, rows, req); var named := src.(revision := 0, revKnown := false);
            && Tells(named, page) && PointsBelow(named, page, Asked(src, req))
            && (!page.stale && Asked(src, req) <= 0 ==> page.entries == [])
  {
    hide StartTurn, EndTurn, CutEntries, NewEntry, EntryIds.Format;
    var page := EventRows.EventSlice(src, rows, req);
    TurnsAreBounds(page.entries);
  }

  function UserRows(rows: seq<Row>, n: nat): set<int>
    requires n <= |rows|
  {
    set i | 0 <= i < n && rows[i].role == "user"
  }

  lemma {:induction false} OneMoreRow(rows: seq<Row>, n: nat)
    requires n < |rows|
    ensures |UserRows(rows, n + 1)| == |UserRows(rows, n)| + if rows[n].role == "user" then 1 else 0
  {
    assert UserRows(rows, n + 1) == if rows[n].role == "user" then UserRows(rows, n) + {n} else UserRows(rows, n);
  }

  /** The turn of a row is the number of user rows up to it. */
  lemma {:induction false} EventTurnsCountUsers(rows: seq<Row>, n: nat)
    requires n <= |rows|
    ensures EventRows.TurnAt(rows, n) == |UserRows(rows, n)|
  {
    hide UserRows;
    if n > 0 {
      EventTurnsCountUsers(rows, n - 1);
      OneMoreRow(rows, n - 1);
    } else {
      NoRows(rows);
    }
  }

  lemma {:induction false} NoRows(rows: seq<Row>)
    ensures UserRows(rows, 0) == {}
  {
  }

  /** The event pager completes the source with its rows, their turns and the number of turns. */
  lemma {:induction false} EventSourceTells(plain: Source, rows: seq<Row>, i: nat)
    requires i < |rows|
    ensures var src := EventRows.EventSource(plain, rows);
            && src.total == |rows| == |src.turns| && src.turns[i] == |UserRows(rows, i + 1)|
            && src.totalTurns == |UserRows(rows, |rows|)|
            && src == plain.(total := src.total, turns := src.turns, totalTurns := src.totalTurns)
  {
    hide UserRows;
    EventTurnsCountUsers(rows, i + 1);
    EventTurnsCountUsers(rows, |rows|);
  }

  /** The same for content requests of event-format sessions, where a ref is looked up in the rows as
      they are now, without regard to the version. */
  lemma {:induction false} EventRefServedIff(a: Source, rowsA: seq<Row>, i: nat, ref: ContentRef, s: Session, b: Source,
                                             events: Option<seq<Row>>, n: int)
    requires i < |rowsA| == |a.turns| && b.total == |s.msgs| && ':' !in a.sessionID
    requires ref in EventRows.EventEntry(a, rowsA, i).refs
    ensures var chunk := ContentFor(s, b, events, ref, n);
            && (!chunk.stale <==>
                a.sessionID == b.sessionID && exists value :: GivenByRow(events, i, ref, value) && |value| == ref.size)
            && (chunk.stale ==> chunk.data == "" && chunk.chunks == 0 && !chunk.done)
            && (!chunk.stale ==> forall value :: GivenByRow(events, i, ref, value) ==> ServesChunk(chunk, value, n))
            && chunk.chunk == Max(n, 0)
  {
    hide EntryIds.Parse, EntryIds.SessionOf, EntryIds.Format, FieldValue, Gives, Chunks.ChunkCount, Chunks.ChunkData,
      NewEntry, RefTells, AnswerFor;
    var id := EntryIds.Format(a.sessionID, 0, 'e', i, 0);
    EntryIds.ParseRow(a.sessionID, 0, i, 0);
    assert ref.entryID == id by {
      RefIsTold(a, id, i, rowsA[i], ref);
      RefNamesEntry(a, id, rowsA[i], ref);
    }
    if events.Some? && i < |events.value| {
      var row := events.value[i];
      FieldValueGives(row, ref.field, ref.toolCallID);
      forall value ensures Gives(row, ref.field, ref.toolCallID, Some(value)) <==>
                           FieldValue(row, ref.field, ref.toolCallID) == Some(value)
      {
        GivesOne(row, ref.field, ref.toolCallID, Some(value));
      }
    }
  }

  ghost predicate GivenByRow(events: Option<seq<Row>>, i: int, ref: ContentRef, value: string) {
    events.Some? && 0 <= i < |events.value| && Gives(events.value[i], ref.field, ref.toolCallID, Some(value))
  }

  lemma {:induction false} RefNamesEntry(src: Source, id: string, row: Row, ref: ContentRef)
    requires RefTells(src, id, row, ref)
    ensures ref.entryID == id
  {
  }

  // ---------------------------------------------------------------------------------
  // The full conversion
  // ---------------------------------------------------------------------------------

  /** The planner display that message `i` of a transcript takes: of the displays recorded for its text
      the next one that no earlier message has taken. */
  ghost function DisplayAt(s: Session, i: nat, key: string): seq<Row>
    requires i <= |s.msgs|
  {
    var all := ConvertMeaning.DisplaysFor(s.rules, s.planners, key);
    var taken := ConvertMeaning.TakenBefore(s.rules, s.planners, Displayed(s), i, key);
    if taken < |all| then all[taken].messages else []
  }

  /** An earlier message shows the display of an interrupted planner turn, and the user has started no
      turn since. */
  ghost predicate SilencedAt(s: Session, i: nat)
    requires i <= |s.msgs|
  {
    exists j: nat :: j < i && ConvertMeaning.Interrupts(s.rules, s.planners, Displayed(s), j) &&
                     forall k :: j < k < i ==> !ConvertMeaning.Lifts(s.rules, Displayed(s)[k])
  }

  /** Every message of the one-pass conversion shows what ConvertMeaning says, silenced and with planner
      displays as the messages before it decide. */
  lemma {:induction false} FullRowsShow(s: Session, i: nat, text: string, shown: string)
    requires i < |s.msgs|
    requires ConvertMeaning.Wrote(s.rules, Displayed(s)[i], text)
    requires ConvertMeaning.Displays(s.rules, Displayed(s)[i], shown)
    ensures var m, key := Displayed(s)[i], s.rules.displayKey(text);
            ConvertMeaning.Shows(s.rules, SilencedAt(s, i), i, m, FullLookups(s), text, shown, DisplayAt(s, i, key),
              FullRows(s, i))
  {
    hide ConvertMeaning.Shows, ConvertMeaning.Interrupts, ConvertMeaning.Lifts, ConvertMeaning.Wrote,
      ConvertMeaning.Displays, ConvertStep, Displayed, ConvertMeaning.DisplaysFor, ConvertMeaning.TakenBefore;
    var key := s.rules.displayKey(text);
    ConvertMeaning.ConversionShows(s.rules, FullState(s, i), i, Displayed(s)[i], FullLookups(s), text, shown);
    ConvertMeaning.SilencedIff(s.rules, s.planners, Displayed(s), i);
    ConvertMeaning.DisplaysAreTakenInOrder(s.rules, s.planners, Displayed(s), i, key);
  }
}
