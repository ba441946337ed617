/** The windowed read view over one session, and the lookups derived from it. */
module HistorySource {
  import opened Prelude
  import opened HistoryModel

  /** historySliceSource.  `fetch` may fail or come back short, as file and session reads do. */
  datatype Source = Source(
    sessionID: string, total: nat, turns: seq<int>, roles: seq<Role>, totalTurns: int,
    revision: int, revKnown: bool, digest: string, epoch: int,
    fetch: (int, int) -> Result<seq<Message>>,
    windowBytes: Option<(int, int) -> int>)

  /** `src` is a view of `msgs`: whatever window it does deliver in full is the right one. */
  ghost predicate Serves(src: Source, msgs: seq<Message>) {
    && src.total == |msgs| == |src.turns| == |src.roles|
    && (forall i :: 0 <= i < |msgs| ==> src.roles[i] == msgs[i].role)
    && (forall lo, hi :: 0 <= lo <= hi <= |msgs| ==> FetchSound(src, msgs, lo, hi))
  }

  ghost predicate FetchSound(src: Source, msgs: seq<Message>, lo: int, hi: int)
    requires 0 <= lo <= hi <= |msgs|
  {
    src.fetch(lo, hi).Ok? && |src.fetch(lo, hi).value| == hi - lo ==> src.fetch(lo, hi).value == msgs[lo..hi]
  }

  /** Every window can be read in full. */
  ghost predicate Readable(src: Source) {
    forall lo, hi :: 0 <= lo <= hi <= src.total ==> FetchComplete(src, lo, hi)
  }

  ghost predicate FetchComplete(src: Source, lo: int, hi: int) {
    src.fetch(lo, hi).Ok? && |src.fetch(lo, hi).value| == hi - lo
  }

  /** Read one window, refusing a short one. */
  method FetchWindow(src: Source, lo: nat, hi: nat, ghost msgs: seq<Message>) returns (r: Result<seq<Message>>)
    requires Serves(src, msgs) && lo <= hi <= src.total
    ensures r.Ok? ==> r.value == msgs[lo..hi]
    ensures r.Err? ==> !Readable(src)
  {
    assert FetchSound(src, msgs, lo, hi);
    r := src.fetch(lo, hi);
    if r.Ok? && |r.value| != hi - lo {
      r := Err("history window length");
    }
    assert r.Err? ==> !FetchComplete(src, lo, hi);
  }

  /** historyLookupChunkMessages. */
  const LOOKUP_CHUNK := 128
}

/** Tool results: the whole-transcript map, and the window plus look-ahead of a page. */
module ToolResults {
  import opened Prelude
  import opened HistoryModel
  import opened HistorySource

  predicate IsResult(m: Message, id: string) {
    m.role.Tool? && m.toolCallID == id && id != ""
  }

  /** historyToolResultsByID. */
  function ResultsById(msgs: seq<Message>): map<string, Message> {
    if msgs == [] then map[]
    else
      var m := msgs[|msgs| - 1];
      var prev := ResultsById(msgs[..|msgs| - 1]);
      if m.role.Tool? && m.toolCallID != "" then prev[m.toolCallID := m] else prev
  }

  method HistoryToolResultsByID(msgs: seq<Message>) returns (out: map<string, Message>)
    ensures out == ResultsById(msgs)
  {
    out := map[];
    for i := 0 to |msgs|
      invariant out == ResultsById(msgs[..i])
    {
      assert msgs[..i + 1][..i] == msgs[..i];
      if msgs[i].role.Tool? && msgs[i].toolCallID != "" {
        out := out[msgs[i].toolCallID := msgs[i]];
      }
    }
    assert msgs[..|msgs|] == msgs;
  }

  /** Position of the last result for `id` in [lo, hi), or -1. */
  ghost function Last(msgs: seq<Message>, lo: nat, hi: nat, id: string): (p: int)
    requires hi <= |msgs|
    ensures p == -1 || (lo <= p < hi && IsResult(msgs[p], id))
    ensures forall q :: lo <= q < hi && q > p ==> !IsResult(msgs[q], id)
    decreases hi
  {
    if hi <= lo then -1 else if IsResult(msgs[hi - 1], id) then hi - 1 else Last(msgs, lo, hi - 1, id)
  }

  /** Position of the first result for `id` at or after `lo`, or -1. */
  ghost function First(msgs: seq<Message>, lo: nat, id: string): (p: int)
    requires lo <= |msgs|
    ensures p == -1 || (lo <= p < |msgs| && IsResult(msgs[p], id))
    ensures forall q :: lo <= q < |msgs| && (p == -1 || q < p) ==> !IsResult(msgs[q], id)
    decreases |msgs| - lo
  {
    if lo == |msgs| then -1 else if IsResult(msgs[lo], id) then lo else First(msgs, lo + 1, id)
  }

  ghost function At(msgs: seq<Message>, p: int): Option<Message>
    requires -1 <= p < |msgs|
  {
    if p < 0 then None else Some(msgs[p])
  }

  /** What the whole-transcript map answers for `id`: its last result. */
  ghost function FullResult(msgs: seq<Message>, id: string): Option<Message> {
    At(msgs, Last(msgs, 0, |msgs|, id))
  }

  /** What a page over [lo, hi) answers: the last result in the window, else the first
      result after it. */
  ghost function WindowResult(msgs: seq<Message>, lo: nat, hi: nat, id: string): Option<Message>
    requires lo <= hi <= |msgs|
  {
    if Last(msgs, lo, hi, id) >= 0 then At(msgs, Last(msgs, lo, hi, id)) else At(msgs, First(msgs, hi, id))
  }

  ghost predicate Answers(results: map<string, Message>, id: string, want: Option<Message>) {
    (id in results <==> want.Some?) && (want.Some? && id in results ==> results[id] == want.value)
  }

  lemma {:induction false} MapAnswersLast(msgs: seq<Message>, lo: nat, hi: nat, id: string)
    requires lo <= hi <= |msgs|
    ensures Answers(ResultsById(msgs[lo..hi]), id, At(msgs, Last(msgs, lo, hi, id)))
    decreases hi
  {
    if lo < hi {
      assert msgs[lo..hi][..hi - 1 - lo] == msgs[lo..hi - 1];
      MapAnswersLast(msgs, lo, hi - 1, id);
    }
  }

  /** Ids of the tool calls of some messages; the empty id never names a result. */
  function CallIds(msgs: seq<Message>): set<string> {
    set i, k | 0 <= i < |msgs| && 0 <= k < |msgs[i].toolCalls| &&
      msgs[i].toolCalls[k].id != "" :: msgs[i].toolCalls[k].id
  }

  /** The look-ahead of extendHistoryToolResults up to `i`: ids still wanted have no result in
      the window or before `i`; every other call id of the window is answered. */
  ghost predicate Scanned(msgs: seq<Message>, lo: nat, hi: nat, i: nat, ids: set<string>, want: set<string>,
                          out: map<string, Message>)
    requires lo <= hi <= i <= |msgs|
  {
    && want <= ids
    && (forall id :: id in want ==> id != "" && id !in out && Last(msgs, lo, hi, id) == -1 && NoResult(msgs, hi, i, id))
    && (forall id :: id in ids && id !in want ==> Answers(out, id, WindowResult(msgs, lo, hi, id)))
    && "" !in out
  }

  ghost predicate NoResult(msgs: seq<Message>, lo: nat, hi: nat, id: string)
    requires hi <= |msgs|
  {
    forall q :: lo <= q < hi ==> !IsResult(msgs[q], id)
  }

  lemma {:induction false} ScanStarts(msgs: seq<Message>, lo: nat, hi: nat, ids: set<string>, want: set<string>)
    requires lo <= hi <= |msgs| && "" !in ids
    requires forall id :: id in want <==> id in ids && id !in ResultsById(msgs[lo..hi])
    ensures Scanned(msgs, lo, hi, hi, ids, want, ResultsById(msgs[lo..hi]))
  {
    forall id ensures Answers(ResultsById(msgs[lo..hi]), id, At(msgs, Last(msgs, lo, hi, id))) {
      MapAnswersLast(msgs, lo, hi, id);
    }
    assert Last(msgs, lo, hi, "") == -1;
  }

  lemma {:induction false} ScanSkips(msgs: seq<Message>, lo: nat, hi: nat, i: nat, ids: set<string>, want: set<string>,
                                     out: map<string, Message>)
    requires lo <= hi <= i < |msgs| && Scanned(msgs, lo, hi, i, ids, want, out)
    requires !msgs[i].role.Tool? || msgs[i].toolCallID == "" || msgs[i].toolCallID !in want
    ensures Scanned(msgs, lo, hi, i + 1, ids, want, out)
  {
    forall id | id in want ensures NoResult(msgs, hi, i + 1, id) {
    }
  }

  lemma {:induction false} ScanFinds(msgs: seq<Message>, lo: nat, hi: nat, i: nat, ids: set<string>, want: set<string>,
                                     out: map<string, Message>)
    requires lo <= hi <= i < |msgs| && Scanned(msgs, lo, hi, i, ids, want, out)
    requires msgs[i].role.Tool? && msgs[i].toolCallID in want
    ensures Scanned(msgs, lo, hi, i + 1, ids, want - {msgs[i].toolCallID}, out[msgs[i].toolCallID := msgs[i]])
  {
    var found := msgs[i].toolCallID;
    FirstIs(msgs, hi, i, found);
    forall id | id in want - {found} ensures NoResult(msgs, hi, i + 1, id) {
    }
  }

  lemma {:induction false} ScanEnds(msgs: seq<Message>, lo: nat, hi: nat, i: nat, ids: set<string>, want: set<string>,
                                    out: map<string, Message>)
    requires lo <= hi <= i <= |msgs| && Scanned(msgs, lo, hi, i, ids, want, out)
    requires i == |msgs| || want == {}
    ensures forall id :: id in ids ==> Answers(out, id, WindowResult(msgs, lo, hi, id))
  {
    forall id | id in want ensures Answers(out, id, WindowResult(msgs, lo, hi, id)) {
      assert First(msgs, hi, id) == -1;
    }
  }

  /** extendHistoryToolResults. */
  method ExtendHistoryToolResults(src: Source, lo: nat, hi: nat, results: map<string, Message>, window: seq<Message>,
                                  ghost msgs: seq<Message>)
    returns (r: Result<map<string, Message>>)
    requires Serves(src, msgs) && lo <= hi <= src.total
    requires results == ResultsById(msgs[lo..hi])
    ensures r.Ok? ==> forall id :: id in CallIds(window) ==> Answers(r.value, id, WindowResult(msgs, lo, hi, id))
    ensures r.Ok? ==> "" !in r.value
    ensures r.Err? ==> !Readable(src)
  {
    var ids := CallIds(window);
    var want := set id | id in ids && id !in results;
    var out := results;
    var i := hi;
    ScanStarts(msgs, lo, hi, ids, want);
    while i < src.total && want != {}
      invariant hi <= i <= src.total
      invariant Scanned(msgs, lo, hi, i, ids, want, out)
    {
      if src.roles[i].Tool? {
        var fetched := FetchWindow(src, i, i + 1, msgs);
        if fetched.Err? {
          return Err(fetched.message);
        }
        var m := fetched.value[0];
        if m.toolCallID != "" && m.toolCallID in want {
          ScanFinds(msgs, lo, hi, i, ids, want, out);
          out := out[m.toolCallID := m];
          want := want - {m.toolCallID};
        } else {
          ScanSkips(msgs, lo, hi, i, ids, want, out);
        }
      } else {
        ScanSkips(msgs, lo, hi, i, ids, want, out);
      }
      i := i + 1;
    }
    ScanEnds(msgs, lo, hi, i, ids, want, out);
    return Ok(out);
  }

  lemma {:induction false} FirstIs(msgs: seq<Message>, hi: nat, i: nat, id: string)
    requires hi <= i < |msgs| && IsResult(msgs[i], id)
    requires forall q :: hi <= q < i ==> !IsResult(msgs[q], id)
    ensures First(msgs, hi, id) == i
  {
    var p := First(msgs, hi, id);
    assert p != -1;
    assert p >= i;
  }

  // ---------------------------------------------------------------------------------
  // When windows answer like the whole transcript
  // ---------------------------------------------------------------------------------

  /** Some result of `id` is at or after the call at `i`, and from the last one at or before
      the call onwards all results of `id` are the same message. */
  ghost predicate Settled(msgs: seq<Message>, i: nat, id: string)
    requires i < |msgs|
  {
    var p := Last(msgs, 0, |msgs|, id);
    var from := Last(msgs, 0, i + 1, id);
    p < 0 || (p >= i && forall q :: (if from >= 0 then from else i) <= q < |msgs| && IsResult(msgs[q], id) ==>
      msgs[q] == msgs[p])
  }

  lemma {:induction false} SettledWindow(msgs: seq<Message>, i: nat, id: string, lo: nat, hi: nat)
    requires lo <= i < hi <= |msgs| && Settled(msgs, i, id)
    ensures WindowResult(msgs, lo, hi, id) == FullResult(msgs, id)
  {
    var p := Last(msgs, 0, |msgs|, id);
    var from := Last(msgs, 0, i + 1, id);
    var q := Last(msgs, lo, hi, id);
    if p >= 0 {
      if q >= 0 {
        assert from >= 0 ==> IsResult(msgs[from], id);
      } else {
        assert p >= hi;
        assert First(msgs, hi, id) >= hi;
      }
    }
  }

  lemma {:induction false} LastIs(msgs: seq<Message>, lo: nat, hi: nat, id: string, q: nat)
    requires lo <= q < hi <= |msgs| && IsResult(msgs[q], id)
    requires forall x :: q < x < hi ==> !IsResult(msgs[x], id)
    ensures Last(msgs, lo, hi, id) == q
  {
    assert Last(msgs, lo, hi, id) >= q;
  }

  /** Every page window holding the call at `i` resolves `id` as the whole transcript does,
      exactly when the results of `id` are settled around the call. */
  lemma {:induction false} WindowsAgreeIff(msgs: seq<Message>, i: nat, id: string)
    requires i < |msgs|
    ensures Settled(msgs, i, id) <==>
            forall lo: nat, hi: nat :: lo <= i < hi <= |msgs| ==> WindowResult(msgs, lo, hi, id) == FullResult(msgs, id)
  {
    if Settled(msgs, i, id) {
      forall lo: nat, hi: nat | lo <= i < hi <= |msgs|
        ensures WindowResult(msgs, lo, hi, id) == FullResult(msgs, id)
      {
        SettledWindow(msgs, i, id, lo, hi);
      }
    } else {
      var lo, hi := Disagreement(msgs, i, id);
    }
  }

  /** A window on which an unsettled id is resolved differently. */
  lemma {:induction false} Disagreement(msgs: seq<Message>, i: nat, id: string) returns (lo: nat, hi: nat)
    requires i < |msgs| && !Settled(msgs, i, id)
    ensures lo <= i < hi <= |msgs| && WindowResult(msgs, lo, hi, id) != FullResult(msgs, id)
  {
    var p := Last(msgs, 0, |msgs|, id);
    var from := Last(msgs, 0, i + 1, id);
    if p < i {
      lo, hi := i, i + 1;
      assert First(msgs, hi, id) == -1;
    } else {
      var q :| (if from >= 0 then from else i) <= q < |msgs| && IsResult(msgs[q], id) && msgs[q] != msgs[p];
      lo := if from >= 0 then from else i;
      hi := Max(q, i) + 1;
      LastIs(msgs, lo, hi, id, q);
    }
  }

  /** The ordinary transcript: a call id has at most one result, and it follows the call. */
  lemma {:induction false} OneResultSettles(msgs: seq<Message>, i: nat, id: string)
    requires i < |msgs|
    requires forall p, q ::
               0 <= p < |msgs| && 0 <= q < |msgs| && IsResult(msgs[p], id) && IsResult(msgs[q], id) ==> p == q && p > i
    ensures Settled(msgs, i, id)
  {
  }
}

/** Replay of todo_write and complete_step calls. */
module Todos {
  import opened Prelude
  import opened HistoryModel
  import opened HistorySource

  /** historyTodoArgsState. */
  datatype Replay = Replay(out: map<string, string>, todos: seq<Todo>, latest: string)

  const START := Replay(map[], [], "")

  function Publish(r: Rules, st: Replay): Replay {
    match r.renderTodos(st.todos)
    case None => st
    case Some(args) => st.(out := st.out[st.latest := args])
  }

  function ReplayCall(r: Rules, ok: set<string>, st: Replay, tc: ToolCall): Replay {
    if tc.id == "" || tc.id !in ok then st
    else if tc.name == "todo_write" then
      var todos := r.todosOf(tc.arguments);
      if todos == [] then st else Publish(r, st.(todos := r.normalizeTodos(todos), latest := tc.id))
    else if tc.name == "complete_step" then
      if st.latest == "" || st.todos == [] then st
      else
        match r.advanceTodos(tc.arguments, st.todos)
        case None => st
        case Some(todos) => Publish(r, st.(todos := todos))
    else st
  }

  function ReplayCalls(r: Rules, ok: set<string>, st: Replay, calls: seq<ToolCall>): Replay {
    if calls == [] then st
    else ReplayCall(r, ok, ReplayCalls(r, ok, st, calls[..|calls| - 1]), calls[|calls| - 1])
  }

  function ReplayAll(r: Rules, ok: set<string>, st: Replay, msgs: seq<Message>): Replay {
    if msgs == [] then st
    else ReplayCalls(r, ok, ReplayAll(r, ok, st, msgs[..|msgs| - 1]), msgs[|msgs| - 1].toolCalls)
  }

  predicate Succeeds(r: Rules, m: Message) {
    m.role.Tool? && m.toolCallID != "" && !r.failed(m.content)
  }

  /** successfulHistoryToolCallIDs. */
  function Successful(r: Rules, msgs: seq<Message>): set<string> {
    set i | 0 <= i < |msgs| && Succeeds(r, msgs[i]) :: msgs[i].toolCallID
  }

  /** historyTodoArgsWithCompleteSteps: the in-memory replay. */
  function TodoArgs(r: Rules, msgs: seq<Message>): map<string, string> {
    ReplayAll(r, Successful(r, msgs), START, msgs).out
  }

  lemma {:induction false} ReplayAllConcat(r: Rules, ok: set<string>, st: Replay, a: seq<Message>, b: seq<Message>)
    ensures ReplayAll(r, ok, ReplayAll(r, ok, st, a), b) == ReplayAll(r, ok, st, a + b)
  {
    if b == [] {
      assert a + b == a;
    } else {
      assert (a + b)[..|a + b| - 1] == a + b[..|b| - 1];
      ReplayAllConcat(r, ok, st, a, b[..|b| - 1]);
    }
  }

  lemma {:induction false} SuccessfulConcat(r: Rules, a: seq<Message>, b: seq<Message>)
    ensures Successful(r, a + b) == Successful(r, a) + Successful(r, b)
  {
    var whole, parts := Successful(r, a + b), Successful(r, a) + Successful(r, b);
    forall id | id in parts ensures id in whole {
      if id in Successful(r, a) {
        var i :| 0 <= i < |a| && Succeeds(r, a[i]) && a[i].toolCallID == id;
        assert (a + b)[i] == a[i];
      } else {
        var i :| 0 <= i < |b| && Succeeds(r, b[i]) && b[i].toolCallID == id;
        assert (a + b)[|a| + i] == b[i];
      }
    }
  }

  /** One message of the replay, as historyTodoArgsState.consume runs it. */
  method Consume(r: Rules, ok: set<string>, st: Replay, m: Message) returns (next: Replay)
    ensures next == ReplayCalls(r, ok, st, m.toolCalls)
  {
    next := st;
    for k := 0 to |m.toolCalls|
      invariant next == ReplayCalls(r, ok, st, m.toolCalls[..k])
    {
      assert m.toolCalls[..k + 1][..k] == m.toolCalls[..k];
      next := ReplayCall(r, ok, next, m.toolCalls[k]);
    }
    assert m.toolCalls[..|m.toolCalls|] == m.toolCalls;
  }

  method ConsumeChunk(r: Rules, ok: set<string>, st: Replay, msgs: seq<Message>) returns (next: Replay)
    ensures next == ReplayAll(r, ok, st, msgs)
  {
    next := st;
    for k := 0 to |msgs|
      invariant next == ReplayAll(r, ok, st, msgs[..k])
    {
      assert msgs[..k + 1][..k] == msgs[..k];
      next := Consume(r, ok, next, msgs[k]);
    }
    assert msgs[..|msgs|] == msgs;
  }

  /** historyTodoArgsForSource: two passes over bounded chunks give the in-memory replay. */
  method HistoryTodoArgsForSource(r: Rules, src: Source, ghost msgs: seq<Message>)
    returns (out: Result<map<string, string>>)
    requires Serves(src, msgs)
    ensures out.Ok? ==> out.value == TodoArgs(r, msgs)
    ensures out.Err? ==> !Readable(src)
  {
    hide ReplayAll, Successful;
    var passed := SuccessfulForSource(r, src, msgs);
    if passed.Err? {
      return Err(passed.message);
    }
    var replayed := ReplayForSource(r, src, passed.value, msgs);
    if replayed.Err? {
      return Err(replayed.message);
    }
    return Ok(replayed.value.out);
  }

  /** The first pass: ids of the calls that succeeded. */
  method SuccessfulForSource(r: Rules, src: Source, ghost msgs: seq<Message>) returns (out: Result<set<string>>)
    requires Serves(src, msgs)
    ensures out.Ok? ==> out.value == Successful(r, msgs)
    ensures out.Err? ==> !Readable(src)
  {
    hide Succeeds;
    var ok := {};
    var lo := 0;
    while lo < src.total
      invariant 0 <= lo <= src.total
      invariant ok == Successful(r, msgs[..lo])
    {
      var hi := Min(lo + LOOKUP_CHUNK, src.total);
      var chunk := FetchWindow(src, lo, hi, msgs);
      if chunk.Err? {
        return Err(chunk.message);
      }
      SuccessfulConcat(r, msgs[..lo], msgs[lo..hi]);
      assert msgs[..lo] + msgs[lo..hi] == msgs[..hi];
      ok := ok + Successful(r, chunk.value);
      lo := hi;
    }
    assert msgs[..src.total] == msgs;
    return Ok(ok);
  }

  /** The second pass: the replay itself. */
  method ReplayForSource(r: Rules, src: Source, ok: set<string>, ghost msgs: seq<Message>) returns (out: Result<Replay>)
    requires Serves(src, msgs)
    ensures out.Ok? ==> out.value == ReplayAll(r, ok, START, msgs)
    ensures out.Err? ==> !Readable(src)
  {
    hide ReplayCalls, ReplayCall;
    var state := START;
    var lo := 0;
    while lo < src.total
      invariant 0 <= lo <= src.total
      invariant state == ReplayAll(r, ok, START, msgs[..lo])
    {
      var hi := Min(lo + LOOKUP_CHUNK, src.total);
      var chunk := FetchWindow(src, lo, hi, msgs);
      if chunk.Err? {
        return Err(chunk.message);
      }
      ReplayAllConcat(r, ok, START, msgs[..lo], msgs[lo..hi]);
      assert msgs[..lo] + msgs[lo..hi] == msgs[..hi];
      state := ConsumeChunk(r, ok, state, chunk.value);
      lo := hi;
    }
    assert msgs[..src.total] == msgs;
    return Ok(state);
  }

  /** historyWindowContainsTodoWrite. */
  predicate ContainsTodoWrite(msgs: seq<Message>) {
    exists i, k :: 0 <= i < |msgs| && 0 <= k < |msgs[i].toolCalls| && msgs[i].toolCalls[k].name == "todo_write"
  }
}

/** Legacy timestamps overlaid on the displayed messages. */
module Times {
  import opened Prelude
  import opened HistoryModel

  /** Persisted times of the session's user messages in order (None: no time recorded), or
      the reason they cannot be used. */
  datatype UserTimes = Unavailable | Times(at: seq<Option<int>>)

  predicate Untimed(r: Rules, m: Message) {
    m.role.User? && m.createdAt <= 0 && Authored(r, m)
  }

  predicate NeedsTimes(r: Rules, msgs: seq<Message>) {
    exists i :: 0 <= i < |msgs| && Untimed(r, msgs[i])
  }

  /** countRoleBefore for the user role. */
  function Users(msgs: seq<Message>, n: nat): nat
    requires n <= |msgs|
  {
    if n == 0 then 0 else Users(msgs, n - 1) + if msgs[n - 1].role.User? then 1 else 0
  }

  /** The message with ordinal `k` among user messages, timed from the records. */
  function Timed(m: Message, times: seq<Option<int>>, k: nat): Message {
    if m.role.User? && k < |times| && m.createdAt <= 0 && times[k].Some? then m.(createdAt := times[k].value) else m
  }

  /** The overlay has something to do. */
  predicate Applies(r: Rules, msgs: seq<Message>, times: UserTimes) {
    times.Times? && NeedsTimes(r, msgs)
  }

  function TimedAt(msgs: seq<Message>, times: UserTimes, offset: nat, i: nat): Message
    requires i < |msgs| && times.Times?
  {
    Timed(msgs[i], times.at, offset + Users(msgs, i))
  }

  /** historyWindowWithPersistedTimes; with offset 0 on the whole transcript it is
      historyProviderMessagesWithPersistedTimes. */
  function Overlay(r: Rules, msgs: seq<Message>, times: UserTimes, offset: nat): (out: seq<Message>)
    ensures |out| == |msgs|
    ensures Applies(r, msgs, times) ==> forall i :: 0 <= i < |msgs| ==> out[i] == TimedAt(msgs, times, offset, i)
    ensures !Applies(r, msgs, times) ==> out == msgs
  {
    if Applies(r, msgs, times) then seq(|msgs|, i requires 0 <= i < |msgs| => TimedAt(msgs, times, offset, i)) else msgs
  }

  method WithPersistedTimes(r: Rules, msgs: seq<Message>, times: UserTimes, offset: nat) returns (out: seq<Message>)
    ensures out == Overlay(r, msgs, times, offset)
  {
    if !NeedsTimes(r, msgs) {
      return msgs;
    }
    if times.Unavailable? || |times.at| <= offset {
      assert times.Times? ==> forall i :: 0 <= i < |msgs| ==> TimedAt(msgs, times, offset, i) == msgs[i];
      return msgs;
    }
    out := StampTimes(msgs, times, offset);
  }

  method StampTimes(msgs: seq<Message>, times: UserTimes, offset: nat) returns (out: seq<Message>)
    requires times.Times?
    ensures |out| == |msgs| && forall i :: 0 <= i < |msgs| ==> out[i] == TimedAt(msgs, times, offset, i)
  {
    hide Users;
    out := msgs;
    var userIndex := offset;
    UsersStep(msgs, 0);
    for i := 0 to |msgs|
      invariant |out| == |msgs| && userIndex == offset + Users(msgs, i)
      invariant forall k :: 0 <= k < i ==> out[k] == TimedAt(msgs, times, offset, k)
      invariant forall k :: i <= k < |msgs| ==> out[k] == msgs[k]
    {
      UsersStep(msgs, i);
      if msgs[i].role.User? {
        if userIndex >= |times.at| {
          forall k | i <= k < |msgs| ensures out[k] == TimedAt(msgs, times, offset, k) {
            UsersMonotone(msgs, i, k);
          }
          return out;
        }
        var at := times.at[userIndex];
        userIndex := userIndex + 1;
        if msgs[i].createdAt <= 0 && at.Some? {
          out := out[i := msgs[i].(createdAt := at.value)];
        }
      }
    }
  }

  lemma {:induction false} UsersStep(msgs: seq<Message>, i: nat)
    requires i <= |msgs|
    ensures Users(msgs, 0) == 0
    ensures i < |msgs| ==> Users(msgs, i + 1) == Users(msgs, i) + if msgs[i].role.User? then 1 else 0
  {
  }

  lemma {:induction false} UsersMonotone(msgs: seq<Message>, i: nat, k: nat)
    requires i <= k <= |msgs|
    ensures Users(msgs, i) <= Users(msgs, k)
  {
    if i < k {
      UsersMonotone(msgs, i, k - 1);
    }
  }

  /** The ordinal offset aligns a window with the whole transcript. */
  lemma {:induction false} UsersInWindow(msgs: seq<Message>, lo: nat, hi: nat, k: nat)
    requires lo + k <= hi <= |msgs|
    ensures Users(msgs, lo) + Users(msgs[lo..hi], k) == Users(msgs, lo + k)
  {
    if k > 0 {
      UsersInWindow(msgs, lo, hi, k - 1);
    }
  }

  function WindowOverlay(r: Rules, msgs: seq<Message>, times: UserTimes, lo: nat, hi: nat): (out: seq<Message>)
    requires lo <= hi <= |msgs|
    ensures |out| == hi - lo
  {
    Overlay(r, msgs[lo..hi], times, Users(msgs, lo))
  }

  /** A message the whole-transcript overlay changes. */
  predicate Patched(msgs: seq<Message>, times: UserTimes, i: nat)
    requires i < |msgs|
  {
    times.Times? && TimedAt(msgs, times, 0, i) != msgs[i]
  }

  lemma {:induction false} WindowNeeds(r: Rules, msgs: seq<Message>, lo: nat, hi: nat)
    requires lo <= hi <= |msgs| && NeedsTimes(r, msgs[lo..hi])
    ensures NeedsTimes(r, msgs)
  {
    var k :| 0 <= k < hi - lo && Untimed(r, msgs[lo..hi][k]);
    assert Untimed(r, msgs[lo + k]);
  }

  lemma {:induction false} WindowTimedAt(msgs: seq<Message>, times: UserTimes, lo: nat, hi: nat, i: nat)
    requires lo <= i < hi <= |msgs| && times.Times?
    ensures TimedAt(msgs[lo..hi], times, Users(msgs, lo), i - lo) == TimedAt(msgs, times, 0, i)
  {
    UsersInWindow(msgs, lo, hi, i - lo);
  }

  lemma {:induction false} WindowOverlayAt(r: Rules, msgs: seq<Message>, times: UserTimes, lo: nat, hi: nat, i: nat)
    requires lo <= i < hi <= |msgs|
    ensures WindowOverlay(r, msgs, times, lo, hi)[i - lo] ==
            if NeedsTimes(r, msgs[lo..hi]) then Overlay(r, msgs, times, 0)[i] else msgs[i]
  {
    if times.Times? && NeedsTimes(r, msgs[lo..hi]) {
      WindowTimedAt(msgs, times, lo, hi, i);
      WindowNeeds(r, msgs, lo, hi);
    }
  }

  lemma {:induction false} WindowOverlayAtIff(r: Rules, msgs: seq<Message>, times: UserTimes, lo: nat, hi: nat, i: nat)
    requires lo <= i < hi <= |msgs|
    ensures WindowOverlay(r, msgs, times, lo, hi)[i - lo] == Overlay(r, msgs, times, 0)[i] <==>
            (NeedsTimes(r, msgs[lo..hi]) || !NeedsTimes(r, msgs) || !Patched(msgs, times, i))
  {
    WindowOverlayAt(r, msgs, times, lo, hi, i);
  }

  /** The windowed overlay equals the whole one exactly when the window itself asks for
      times, or nothing does, or no message of the window has a time to receive. */
  lemma {:induction false} WindowOverlayIff(r: Rules, msgs: seq<Message>, times: UserTimes, lo: nat, hi: nat)
    requires lo <= hi <= |msgs|
    ensures (forall i :: lo <= i < hi ==>
              WindowOverlay(r, msgs, times, lo, hi)[i - lo] == Overlay(r, msgs, times, 0)[i]) <==>
            (NeedsTimes(r, msgs[lo..hi]) || !NeedsTimes(r, msgs) || forall i :: lo <= i < hi ==>
              !Patched(msgs, times, i))
  {
    forall i | lo <= i < hi
      ensures WindowOverlay(r, msgs, times, lo, hi)[i - lo] == Overlay(r, msgs, times, 0)[i] <==>
              (NeedsTimes(r, msgs[lo..hi]) || !NeedsTimes(r, msgs) || !Patched(msgs, times, i))
    {
      WindowOverlayAtIff(r, msgs, times, lo, hi, i);
    }
  }

  /** Authored user messages get the whole-transcript timestamp in every window. */
  lemma {:induction false} AuthoredTimesAgree(r: Rules, msgs: seq<Message>, times: UserTimes, lo: nat, hi: nat, i: nat)
    requires lo <= i < hi <= |msgs| && (msgs[i].role.User? ==> Authored(r, msgs[i]))
    ensures WindowOverlay(r, msgs, times, lo, hi)[i - lo] == Overlay(r, msgs, times, 0)[i]
  {
    WindowOverlayAt(r, msgs, times, lo, hi, i);
    if Untimed(r, msgs[i]) {
      assert Untimed(r, msgs[lo..hi][i - lo]);
    }
  }
}
