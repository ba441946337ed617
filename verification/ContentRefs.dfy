/** Fetching the full value of a truncated field back through its content ref. */
module ContentRefs {
  import opened Prelude
  import opened HistoryModel
  import opened Convert
  import opened HistorySource
  import opened Entries
  import opened PageSpec
  import opened Pager
  import PagerExact
  import Chunks
  import EntryIds
  import EventRows

  /** First call of a row with the given id. */
  function CallField(calls: seq<RowCall>, field: Field, id: string): Option<string>
    requires field in CALL_FIELDS
  {
    if calls == [] then None
    else if calls[0].id == id then Some(Entries.CallField(calls[0], field))
    else CallField(calls[1..], field, id)
  }

  /** historyEntryFieldValue. */
  function FieldValue(row: Row, field: Field, toolCallID: string): Option<string> {
    if field in ROW_FIELDS then Some(RowField(row, field))
    else if field in CALL_FIELDS then CallField(row.toolCalls, field, toolCallID)
    else None
  }

  /** Tool call ids are distinct within a row. */
  predicate UniqueCalls(row: Row) {
    forall j, k :: 0 <= j < k < |row.toolCalls| ==> row.toolCalls[j].id != row.toolCalls[k].id
  }

  /** The field is told apart from the others of its row: fields of the row always are, fields
      of a tool call when call ids are distinct. */
  predicate Addressed(row: Row, field: Field) {
    field in CALL_FIELDS ==> UniqueCalls(row)
  }

  lemma {:induction false} CallFieldFinds(calls: seq<RowCall>, field: Field, k: nat)
    requires field in CALL_FIELDS && k < |calls|
    requires forall i, j :: 0 <= i < j < |calls| ==> calls[i].id != calls[j].id
    ensures CallField(calls, field, calls[k].id) == Some(Entries.CallField(calls[k], field))
  {
    if k > 0 {
      assert calls[0].id != calls[k].id;
      CallFieldFinds(calls[1..], field, k - 1);
    }
  }

  lemma {:induction false} FieldIsFound(row: Row, field: Field, toolCallID: string, value: string)
    requires IsField(row, field, toolCallID, value) && Addressed(row, field)
    ensures FieldValue(row, field, toolCallID) == Some(value)
  {
    if field !in ROW_FIELDS {
      var k :| 0 <= k < |row.toolCalls| && row.toolCalls[k].id == toolCallID &&
        Entries.CallField(row.toolCalls[k], field) == value;
      CallFieldFinds(row.toolCalls, field, k);
    }
  }

  lemma {:induction false} FieldIgnoresTime(a: Row, b: Row, field: Field, toolCallID: string)
    requires SameRow(a, b)
    ensures FieldValue(a, field, toolCallID) == FieldValue(b, field, toolCallID)
  {
  }

  // ---------------------------------------------------------------------------------
  // Re-resolving one entry
  // ---------------------------------------------------------------------------------

  /** Rows of message `i` when it is re-resolved on its own, without the time overlay. */
  ghost function LoneRows(s: Session, i: nat): seq<Row>
    requires i < |s.msgs|
  {
    ConvertStep(s.rules, PrimedState(s, i), i, s.msgs[i], WindowLookups(s, i, i + 1)).rows
  }

  datatype Answer = Stale | NotFound | Found(value: string)

  ghost function AnswerFor(s: Session, src: Source, index: int, sub: int, ref: ContentRef): Answer
    requires src.total == |s.msgs|
  {
    if !IdentityMatches(src, ref.revision, ref.revKnown, ref.digest) || index < 0 || index >= src.total then Stale
    else if sub < 0 || sub >= |LoneRows(s, index)| then Stale
    else
      match FieldValue(LoneRows(s, index)[sub], ref.field, ref.toolCallID)
      case None => NotFound
      case Some(value) => Found(value)
  }

  /** historyFieldValueForSource; an unreadable source answers stale. */
  method HistoryFieldValueForSource(src: Source, index: int, sub: int, ref: ContentRef, s: Session) returns (a: Answer)
    requires Serves(src, s.msgs)
    ensures a == AnswerFor(s, src, index, sub, ref) || (a.Stale? && !Readable(src))
  {
    if !IdentityMatches(src, ref.revision, ref.revKnown, ref.digest) || index < 0 || index >= src.total {
      return Stale;
    }
    var fetched := FetchWindow(src, index, index + 1, s.msgs);
    if fetched.Err? {
      return Stale;
    }
    var gathered := GatherLookups(src, index, index + 1, fetched.value, s, s.rules, s.checkpoints);
    if gathered.Err? {
      return Stale;
    }
    var state := new ConvertState(s.rules, s.planners);
    var primed := PrimeHistoryPlannerState(src, state, index, s);
    if primed.Err? {
      return Stale;
    }
    LoneLookups(s, index, gathered.value);
    var rows := state.ConvertHistoryMessage(index, fetched.value[0], gathered.value);
    if sub < 0 || sub >= |rows| {
      return Stale;
    }
    match FieldValue(rows[sub], ref.field, ref.toolCallID)
    case None => return NotFound;
    case Some(value) => return Found(value);
  }

  lemma {:induction false} LoneLookups(s: Session, i: nat, lk: Lookups)
    requires i < |s.msgs| && LookupsServe(s, i, i + 1, lk)
    ensures ConvertStep(s.rules, PrimedState(s, i), i, s.msgs[i], lk).rows == LoneRows(s, i)
  {
    assert LookupsServeAt(s, i, i + 1, lk, i);
    WindowKeepsCalls(s, i, i + 1, i);
    RowsUseOwnCalls(s.rules, PrimedState(s, i), i, s.msgs[i], lk, WindowLookups(s, i, i + 1));
  }

  /** Re-resolving a message alone gives the rows of the full conversion up to timestamps. */
  lemma {:induction false} LoneRowsAreFull(s: Session, i: nat)
    requires i < |s.msgs| && PlannerSafe(s) && ResultsSettled(s)
    ensures SameRows(LoneRows(s, i), FullRows(s, i))
  {
    hide PlannerSafe, ResultsSettled, ConvertStep, WindowLookups, FullLookups;
    PrimedIsFull(s, i);
    LookupsAreFull(s, i, i + 1, i);
    WindowKeepsCalls(s, i, i + 1, i);
    RowsUseOwnCalls(s.rules, FullState(s, i), i, s.msgs[i], WindowLookups(s, i, i + 1), FullLookups(s));
    DisplayedAt(s, i);
    RowsButTime(s.rules, FullState(s, i), i, s.msgs[i], Displayed(s)[i], FullLookups(s));
  }

  // ---------------------------------------------------------------------------------
  // HistoryContentForTab
  // ---------------------------------------------------------------------------------

  /** HistoryContentChunk. */
  datatype Chunk = Chunk(chunk: nat, chunks: nat, data: string, done: bool, stale: bool)

  function ChunkOf(ref: ContentRef, index: int, answer: Answer): Chunk {
    var out := Chunk(Max(index, 0), 0, "", false, false);
    if !answer.Found? || |answer.value| != ref.size then out.(stale := true)
    else
      var chunks := Chunks.ChunkCount(answer.value);
      out.(chunks := chunks, data := Chunks.ChunkData(answer.value, Max(index, 0)), done := index >= chunks - 1)
  }

  /** What an entry id resolves to; `events` are the rows of an event-format session, None when
      it cannot be read.  A negative row number falls through to the first message. */
  ghost function AnswerTo(s: Session, src: Source, events: Option<seq<Row>>, ref: ContentRef): Answer
    requires src.total == |s.msgs|
  {
    match EntryIds.Parse(ref.entryID)
    case Malformed => NotFound
    case Message(index, sub) => AnswerFor(s, src, index, sub, ref)
    case LegacyRow(row) => if row >= 0 then EventAnswer(events, row, ref) else AnswerFor(s, src, 0, 0, ref)
  }

  /** legacyHistoryFieldValue. */
  function EventAnswer(events: Option<seq<Row>>, row: nat, ref: ContentRef): Answer {
    if events.None? || row >= |events.value| then NotFound
    else
      match FieldValue(events.value[row], ref.field, ref.toolCallID)
      case None => NotFound
      case Some(value) => Found(value)
  }

  ghost function ContentFor(s: Session, src: Source, events: Option<seq<Row>>, ref: ContentRef, index: int): Chunk
    requires src.total == |s.msgs|
  {
    if EntryIds.Parse(ref.entryID).Malformed? then Chunk(Max(index, 0), 0, "", true, false)
    else if EntryIds.SessionOf(ref.entryID) != src.sessionID then Chunk(Max(index, 0), 0, "", false, true)
    else ChunkOf(ref, index, AnswerTo(s, src, events, ref))
  }

  /** The chunk loop of the source returns on the answer. */
  ghost predicate AnswerSplits(s: Session, src: Source, events: Option<seq<Row>>, ref: ContentRef)
    requires src.total == |s.msgs|
  {
    var answer := AnswerTo(s, src, events, ref);
    answer.Found? && |answer.value| == ref.size ==> Chunks.Splits(answer.value)
  }

  /** HistoryContentForTab; on an answer that does not split the source does not return. */
  method HistoryContentForTab(src: Source, ref: ContentRef, index: int, s: Session, events: Option<seq<Row>>)
    returns (chunk: Chunk)
    requires Serves(src, s.msgs) && AnswerSplits(s, src, events, ref)
    ensures chunk == ContentFor(s, src, events, ref, index) || (chunk.stale && !Readable(src))
  {
    hide AnswerFor, Chunks.Splits, EntryIds.Parse, EntryIds.SessionOf;
    var out := Chunk(Max(index, 0), 0, "", false, false);
    var id := EntryIds.Parse(ref.entryID);
    if id.Malformed? {
      return out.(done := true);
    }
    if EntryIds.SessionOf(ref.entryID) != src.sessionID {
      return out.(stale := true);
    }
    var answer;
    if id.LegacyRow? && id.row >= 0 {
      answer := EventAnswer(events, id.row, ref);
    } else {
      var i, sub := if id.Message? then id.index else 0, if id.Message? then id.sub else 0;
      answer := HistoryFieldValueForSource(src, i, sub, ref, s);
    }
    if !answer.Found? {
      return out.(stale := true);
    }
    if |answer.value| != ref.size {
      return out.(stale := true);
    }
    var data, chunks := Chunks.HistoryContentChunkAt(answer.value, index);
    return out.(chunks := chunks, data := data, done := index >= chunks - 1);
  }

  // ---------------------------------------------------------------------------------
  // Round trips
  // ---------------------------------------------------------------------------------

  /** Re-resolving row `sub` of message `i` gives the field, whichever window it was shown in. */
  lemma {:induction false} RefResolves(s: Session, src: Source, lo: nat, hi: nat, i: nat, sub: nat, ref: ContentRef,
                                       value: string)
    requires src.total == |s.msgs| == |src.turns| && lo <= i < hi <= |s.msgs| && PlannerSafe(s) && ResultsSettled(s)
    requires src.revKnown || src.revision == 0
    requires sub < |WindowRows(s, lo, hi, i)| && Addressed(WindowRows(s, lo, hi, i)[sub], ref.field)
    requires ref.revision == src.revision && ref.revKnown == src.revKnown && ref.digest == src.digest
    requires IsField(WindowRows(s, lo, hi, i)[sub], ref.field, ref.toolCallID, value)
    ensures AnswerFor(s, src, i, sub, ref) == Found(value)
  {
    hide WindowRows, FullRows, LoneRows, FieldValue, IsField, Addressed, SameRow, PlannerSafe, ResultsSettled;
    LoneRowsAreFull(s, i);
    WindowRowsButTime(s, lo, hi, i);
    FieldIsFound(WindowRows(s, lo, hi, i)[sub], ref.field, ref.toolCallID, value);
    FieldIgnoresTime(LoneRows(s, i)[sub], FullRows(s, i)[sub], ref.field, ref.toolCallID);
    FieldIgnoresTime(WindowRows(s, lo, hi, i)[sub], FullRows(s, i)[sub], ref.field, ref.toolCallID);
  }

  /** Fetched chunk by chunk, none stale, the last one and only the last marked done, the answer
      `value` comes back whole. */
  ghost predicate FetchesBack(s: Session, src: Source, events: Option<seq<Row>>, ref: ContentRef, value: string)
    requires src.total == |s.msgs|
  {
    && |value| == ref.size
    && (forall n: nat :: n < ref.chunks ==>
          ContentFor(s, src, events, ref, n) ==
            Chunk(n, ref.chunks, Chunks.ChunkData(value, n), n == ref.chunks - 1, false))
    && Flatten(Chunks.FirstChunks(value, ref.chunks)) == value
  }

  lemma {:induction false} AnswerFetchesBack(s: Session, src: Source, events: Option<seq<Row>>, ref: ContentRef,
                                             value: string)
    requires && src.total == |s.msgs| && Chunks.Splits(value) && ref.size == |value|
             && ref.chunks == Chunks.ChunkCount(value)
    requires !EntryIds.Parse(ref.entryID).Malformed? && EntryIds.SessionOf(ref.entryID) == src.sessionID
    requires AnswerTo(s, src, events, ref) == Found(value)
    ensures FetchesBack(s, src, events, ref, value)
  {
    hide AnswerTo, EntryIds.Parse, EntryIds.SessionOf, Chunks.Splits, Chunks.ChunkData;
    Chunks.ChunksRoundTrip(value);
  }

  lemma {:induction false} EntryOfPart(s: Session, src: Source, lo: nat, hi: nat, start: nat, e: Entry)
    returns (i: nat, sub: nat)
    requires lo <= start <= hi <= |s.msgs| == |src.turns| && e in Flatten(WindowParts(s, src, lo, hi)[start - lo..])
    ensures lo <= i < hi && sub < |WindowRows(s, lo, hi, i)| && e == EntriesOf(src, i, WindowRows(s, lo, hi, i))[sub]
  {
    hide WindowRows, Flatten, NewEntry, EntryIds.Format;
    var k := InPart(WindowParts(s, src, lo, hi)[start - lo..], e);
    i := start + k;
    var part := EntriesOf(src, i, WindowRows(s, lo, hi, i));
    assert e in part;
    sub :| 0 <= sub < |part| && part[sub] == e;
  }

  lemma {:induction false} InPart(parts: seq<seq<Entry>>, e: Entry) returns (k: nat)
    requires e in Flatten(parts)
    ensures k < |parts| && e in parts[k]
  {
    if e in parts[0] {
      k := 0;
    } else {
      var rest := InPart(parts[1..], e);
      k := rest + 1;
    }
  }

  /** An entry of a page is the entry of some row of a message the page covers. */
  lemma {:induction false} EntryOfPage(s: Session, src: Source, req: Request, e: Entry)
    returns (lo: nat, hi: nat, i: nat, sub: nat)
    requires src.total == |s.msgs| == |src.turns| && req.turns > 0 && e in SlicePage(s, src, req).entries
    ensures && lo <= i < hi <= |s.msgs| && sub < |WindowRows(s, lo, hi, i)|
            && e == EntriesOf(src, i, WindowRows(s, lo, hi, i))[sub]
  {
    hide WindowRows, WindowStart, PageStart, PageEntries, WindowParts, EntriesOf;
    hi := UpperBound(src, req);
    lo := WindowStart(src, hi, req.turns);
    PageEndingFacts(s, src, hi, req);
    PagerExact.PageStartInWindow(s, src, hi, req);
    i, sub := EntryOfPart(s, src, lo, hi, PageStart(s, src, hi, req), e);
  }

  /** Every ref of every page stands for one field of a row of the full conversion and fetches
      it back, provided the chunk loop stops on it and, for a field of a tool call, the call ids
      of its row are distinct. */
  lemma {:induction false} ContentRoundTrip(s: Session, src: Source, events: Option<seq<Row>>, req: Request, e: Entry,
                                            ref: ContentRef)
    returns (i: nat, sub: nat, value: string)
    requires src.total == |s.msgs| == |src.turns| && PlannerSafe(s) && ResultsSettled(s)
    requires (src.revKnown || src.revision == 0) && ':' !in src.sessionID
    requires req.turns > 0 && e in SlicePage(s, src, req).entries && ref in e.refs
    ensures i < |s.msgs| && sub < |FullRows(s, i)| && IsField(FullRows(s, i)[sub], ref.field, ref.toolCallID, value)
    ensures |value| == ref.size > Chunks.INLINE_THRESHOLD
    ensures Chunks.Splits(value) && Addressed(FullRows(s, i)[sub], ref.field) ==>
              FetchesBack(s, src, events, ref, value)
  {
    hide WindowRows, FullRows, IsField, Addressed, PlannerSafe, ResultsSettled, SlicePage, FetchesBack,
      EntryIds.Parse, EntryIds.Format, EntryIds.SessionOf, AnswerFor, Chunks.Splits;
    var lo, hi;
    lo, hi, i, sub := EntryOfPage(s, src, req, e);
    var row := WindowRows(s, lo, hi, i)[sub];
    var id := EntryIds.Format(src.sessionID, src.epoch, 'm', i, sub);
    RefsAreFields(src, id, i, row, ref);
    value :| IsField(row, ref.field, ref.toolCallID, value) &&
             ref == ContentRef(id, ref.field, |value|, Chunks.ChunkCount(value), ref.toolCallID, src.revision,
               src.revKnown, src.digest) &&
             |value| > Chunks.INLINE_THRESHOLD;
    WindowRowsButTime(s, lo, hi, i);
    SameRowSameFields(row, FullRows(s, i)[sub], ref.field, ref.toolCallID, value);
    if Chunks.Splits(value) && Addressed(FullRows(s, i)[sub], ref.field) {
      EntryIds.ParseFormatIff(src.sessionID, src.epoch, i, sub);
      RefResolves(s, src, lo, hi, i, sub, ref, value);
      AnswerFetchesBack(s, src, events, ref, value);
    }
  }

  lemma {:induction false} SameRowSameFields(a: Row, b: Row, field: Field, toolCallID: string, value: string)
    requires SameRow(a, b) && IsField(a, field, toolCallID, value)
    ensures IsField(b, field, toolCallID, value) && Addressed(a, field) == Addressed(b, field)
  {
  }

  /** The same for event-format sessions, without a condition on the transcript. */
  lemma {:induction false} EventRoundTrip(s: Session, src: Source, rows: seq<Row>, i: nat, ref: ContentRef)
    returns (value: string)
    requires src.total == |s.msgs| && i < |rows| == |src.turns| && ':' !in src.sessionID
    requires ref in EventRows.EventEntry(src, rows, i).refs
    ensures IsField(rows[i], ref.field, ref.toolCallID, value) && |value| == ref.size > Chunks.INLINE_THRESHOLD
    ensures Chunks.Splits(value) && Addressed(rows[i], ref.field) ==> FetchesBack(s, src, Some(rows), ref, value)
  {
    hide IsField, Addressed, FetchesBack, FieldValue, EntryIds.Parse, EntryIds.Format, EntryIds.SessionOf,
      Chunks.Splits,
      NewEntry, AnswerFor, Chunks.ChunkCount;
    var id := EntryIds.Format(src.sessionID, 0, 'e', i, 0);
    RefsAreFields(src, id, i, rows[i], ref);
    value :| IsField(rows[i], ref.field, ref.toolCallID, value) &&
             ref == ContentRef(id, ref.field, |value|, Chunks.ChunkCount(value), ref.toolCallID, src.revision,
               src.revKnown, src.digest) &&
             |value| > Chunks.INLINE_THRESHOLD;
    if Chunks.Splits(value) && Addressed(rows[i], ref.field) {
      EntryIds.ParseRow(src.sessionID, 0, i, 0);
      FieldIsFound(rows[i], ref.field, ref.toolCallID, value);
      AnswerFetchesBack(s, src, Some(rows), ref, value);
    }
  }
}
