/** What the replayed arguments of todo_write calls are, in terms of the calls of the transcript and
    their results alone. */
module TodoReplay {
  import opened Prelude
  import opened HistoryModel
  import opened Todos

  // ---------------------------------------------------------------------------------
  // The calls of a transcript
  // ---------------------------------------------------------------------------------

  /** All tool calls in order. */
  function CallsOf(msgs: seq<Message>): seq<ToolCall> {
    if msgs == [] then [] else CallsOf(msgs[..|msgs| - 1]) + msgs[|msgs| - 1].toolCalls
  }

  /** Some tool message answers the id, and does not report a failure. */
  ghost predicate Answered(r: Rules, msgs: seq<Message>, id: string) {
    exists i :: 0 <= i < |msgs| && msgs[i].role.Tool? && msgs[i].toolCallID == id && !r.failed(msgs[i].content)
  }

  /** `good` holds the ids whose calls succeeded. */
  ghost predicate Good(r: Rules, msgs: seq<Message>, good: set<string>) {
    forall id :: id in good <==> id != "" && Answered(r, msgs, id)
  }

  /** A todo_write that succeeded and lists something. */
  predicate Lists(r: Rules, good: set<string>, tc: ToolCall) {
    tc.name == "todo_write" && tc.id in good && r.todosOf(tc.arguments) != []
  }

  /** A complete_step that succeeded. */
  predicate Completes(good: set<string>, tc: ToolCall) {
    tc.name == "complete_step" && tc.id in good
  }

  /** The successful complete_step calls among some calls. */
  function Completions(good: set<string>, calls: seq<ToolCall>): seq<ToolCall> {
    if calls == [] then []
    else
      var init := Completions(good, calls[..|calls| - 1]);
      if Completes(good, calls[|calls| - 1]) then init + [calls[|calls| - 1]] else init
  }

  /** A list after one step; a step that matches nothing leaves it. */
  function StepTaken(r: Rules, todos: seq<Todo>, step: ToolCall): seq<Todo> {
    if todos == [] || r.advanceTodos(step.arguments, todos).None? then todos
    else r.advanceTodos(step.arguments, todos).value
  }

  function Advanced(r: Rules, todos: seq<Todo>, steps: seq<ToolCall>): seq<Todo> {
    if steps == [] then todos else StepTaken(r, Advanced(r, todos, steps[..|steps| - 1]), steps[|steps| - 1])
  }

  /** The list of the todo_write at `p`, advanced by the successful steps up to call `k`. */
  function ListAfter(r: Rules, good: set<string>, calls: seq<ToolCall>, p: nat, k: nat): seq<Todo>
    requires p < k <= |calls|
  {
    Advanced(r, r.normalizeTodos(r.todosOf(calls[p].arguments)), Completions(good, calls[p + 1..k]))
  }

  /** The todo_write at `p` is the current one behind call `k`: no other one listed anything since. */
  ghost predicate Current(r: Rules, good: set<string>, calls: seq<ToolCall>, p: nat, k: nat)
    requires k <= |calls|
  {
    p < k && Lists(r, good, calls[p]) && forall j :: p < j < k ==> !Lists(r, good, calls[j])
  }

  /** Call `k - 1` changes the shown list of the todo_write at `p`: it is that call, or a step that
      matches. */
  ghost predicate Changes(r: Rules, good: set<string>, calls: seq<ToolCall>, p: nat, k: nat)
    requires k <= |calls|
  {
    && Current(r, good, calls, p, k)
    && (k == p + 1 ||
        (&& Completes(good, calls[k - 1]) && ListAfter(r, good, calls, p, k - 1) != []
         && r.advanceTodos(calls[k - 1].arguments, ListAfter(r, good, calls, p, k - 1)).Some?))
  }

  /** Behind call `k` the todo_write `id` is shown with `args`: the list as it is there, as text. */
  ghost predicate Shows(r: Rules, good: set<string>, calls: seq<ToolCall>, id: string, args: string, p: nat, k: nat)
    requires k <= |calls|
  {
    && Changes(r, good, calls, p, k) && calls[p].id == id
    && r.renderTodos(ListAfter(r, good, calls, p, k)) == Some(args)
  }

  ghost predicate ShownAt(r: Rules, good: set<string>, calls: seq<ToolCall>, id: string, k: nat) {
    k <= |calls| && exists args, p: nat :: Shows(r, good, calls, id, args, p, k)
  }

  /** `args` is the text the calls show last for `id`. */
  ghost predicate ShownLast(r: Rules, good: set<string>, calls: seq<ToolCall>, id: string, args: string) {
    exists p: nat, k: nat :: k <= |calls| && Shows(r, good, calls, id, args, p, k) &&
      forall l: nat :: k < l <= |calls| ==> !ShownAt(r, good, calls, id, l)
  }

  // ---------------------------------------------------------------------------------
  // The replay shows them
  // ---------------------------------------------------------------------------------

  lemma {:induction false} ReplayFlat(r: Rules, good: set<string>, msgs: seq<Message>)
    ensures ReplayAll(r, good, START, msgs) == ReplayCalls(r, good, START, CallsOf(msgs))
  {
    if msgs != [] {
      ReplayFlat(r, good, msgs[..|msgs| - 1]);
      ReplayJoins(r, good, START, CallsOf(msgs[..|msgs| - 1]), msgs[|msgs| - 1].toolCalls);
    }
  }

  lemma {:induction false} ReplayJoins(r: Rules, good: set<string>, st: Replay, a: seq<ToolCall>, b: seq<ToolCall>)
    ensures ReplayCalls(r, good, ReplayCalls(r, good, st, a), b) == ReplayCalls(r, good, st, a + b)
  {
    if b == [] {
      assert a + b == a;
    } else {
      assert (a + b)[..|a + b| - 1] == a + b[..|b| - 1];
      ReplayJoins(r, good, st, a, b[..|b| - 1]);
    }
  }

  /** The replay holds the current list, and shows what was shown last. */
  ghost predicate Tracks(r: Rules, good: set<string>, calls: seq<ToolCall>, st: Replay) {
    && (forall p: nat :: Current(r, good, calls, p, |calls|) ==>
          st.latest == calls[p].id && st.todos == ListAfter(r, good, calls, p, |calls|))
    && ((forall p: nat :: !Current(r, good, calls, p, |calls|)) ==> st.latest == "" && st.todos == [])
    && ShowsLast(r, good, calls, st.out)
  }

  /** `out` holds exactly what the calls show last. */
  ghost predicate ShowsLast(r: Rules, good: set<string>, calls: seq<ToolCall>, out: map<string, string>) {
    forall id, args :: (id in out && out[id] == args) <==> ShownLast(r, good, calls, id, args)
  }

  lemma {:induction false} PrefixAgrees(r: Rules, good: set<string>, calls: seq<ToolCall>, p: nat, k: nat)
    requires calls != [] && k <= |calls| - 1
    ensures Current(r, good, calls[..|calls| - 1], p, k) == Current(r, good, calls, p, k)
    ensures p < k ==> ListAfter(r, good, calls[..|calls| - 1], p, k) == ListAfter(r, good, calls, p, k)
    ensures Changes(r, good, calls[..|calls| - 1], p, k) == Changes(r, good, calls, p, k)
  {
    hide Lists, Completes, Advanced;
    var init := calls[..|calls| - 1];
    if p < k {
      assert init[p + 1..k] == calls[p + 1..k];
      if p + 1 < k {
        assert init[p + 1..k - 1] == calls[p + 1..k - 1];
      }
    }
  }

  lemma {:induction false} PrefixShows(r: Rules, good: set<string>, calls: seq<ToolCall>, id: string, k: nat)
    requires calls != [] && k <= |calls| - 1
    ensures forall args, p: nat ::
              Shows(r, good, calls[..|calls| - 1], id, args, p, k) == Shows(r, good, calls, id, args, p, k)
    ensures ShownAt(r, good, calls[..|calls| - 1], id, k) == ShownAt(r, good, calls, id, k)
  {
    hide Lists, Completes, ListAfter;
    var init := calls[..|calls| - 1];
    forall args, p: nat ensures Shows(r, good, init, id, args, p, k) == Shows(r, good, calls, id, args, p, k) {
      PrefixAgrees(r, good, calls, p, k);
    }
  }

  lemma {:induction false} ShownLastStep(r: Rules, good: set<string>, calls: seq<ToolCall>, id: string, args: string)
    requires calls != []
    ensures ShownAt(r, good, calls, id, |calls|) ==>
              (ShownLast(r, good, calls, id, args) <==> exists p: nat :: Shows(r, good, calls, id, args, p, |calls|))
    ensures !ShownAt(r, good, calls, id, |calls|) ==>
              (ShownLast(r, good, calls, id, args) <==> ShownLast(r, good, calls[..|calls| - 1], id, args))
  {
    hide Shows, ShownAt;
    var init := calls[..|calls| - 1];
    forall k: nat | k <= |init|
      ensures forall p: nat :: Shows(r, good, init, id, args, p, k) == Shows(r, good, calls, id, args, p, k)
      ensures ShownAt(r, good, init, id, k) == ShownAt(r, good, calls, id, k)
    {
      PrefixShows(r, good, calls, id, k);
    }
    if ShownLast(r, good, calls, id, args) && !ShownAt(r, good, calls, id, |calls|) {
      var p: nat, k: nat :| k <= |calls| && Shows(r, good, calls, id, args, p, k) &&
        forall l: nat :: k < l <= |calls| ==> !ShownAt(r, good, calls, id, l);
      ShowsIsShown(r, good, calls, id, args, p, k);
      assert Shows(r, good, init, id, args, p, k);
    }
    if ShownLast(r, good, init, id, args) && !ShownAt(r, good, calls, id, |calls|) {
      var p: nat, k: nat :| k <= |init| && Shows(r, good, init, id, args, p, k) &&
        forall l: nat :: k < l <= |init| ==> !ShownAt(r, good, init, id, l);
      PrefixShows(r, good, calls, id, k);
      assert Shows(r, good, calls, id, args, p, k);
      forall l: nat | k < l <= |calls| ensures !ShownAt(r, good, calls, id, l) {
        if l <= |init| {
          assert !ShownAt(r, good, init, id, l);
        }
      }
    }
  }

  lemma {:induction false} ShowsIsShown(r: Rules, good: set<string>, calls: seq<ToolCall>, id: string, args: string,
                                        p: nat, k: nat)
    requires k <= |calls| && Shows(r, good, calls, id, args, p, k)
    ensures ShownAt(r, good, calls, id, k)
  {
  }

  lemma {:induction false} OneCurrent(r: Rules, good: set<string>, calls: seq<ToolCall>, p: nat, q: nat, k: nat)
    requires k <= |calls| && Current(r, good, calls, p, k) && Current(r, good, calls, q, k)
    ensures p == q
  {
    hide Lists;
  }

  lemma {:induction false} FreshList(r: Rules, good: set<string>, calls: seq<ToolCall>, p: nat)
    requires p < |calls|
    ensures ListAfter(r, good, calls, p, p + 1) == r.normalizeTodos(r.todosOf(calls[p].arguments))
  {
    assert calls[p + 1..p + 1] == [];
  }

  lemma {:induction false} ListStep(r: Rules, good: set<string>, calls: seq<ToolCall>, p: nat, k: nat)
    requires p + 1 < k <= |calls|
    ensures ListAfter(r, good, calls, p, k) ==
            if Completes(good, calls[k - 1]) then StepTaken(r, ListAfter(r, good, calls, p, k - 1), calls[k - 1])
            else ListAfter(r, good, calls, p, k - 1)
  {
    hide StepTaken;
    var rest := calls[p + 1..k];
    assert rest[..|rest| - 1] == calls[p + 1..k - 1] && rest[|rest| - 1] == calls[k - 1];
    var init := Completions(good, calls[p + 1..k - 1]);
    assert (init + [calls[k - 1]])[..|init|] == init;
  }

  /** A call that shows nothing leaves what was shown. */
  lemma {:induction false} NothingShown(r: Rules, good: set<string>, calls: seq<ToolCall>, out: map<string, string>)
    requires calls != []
    requires ShowsLast(r, good, calls[..|calls| - 1], out)
    requires forall id :: !ShownAt(r, good, calls, id, |calls|)
    ensures ShowsLast(r, good, calls, out)
  {
    hide ShownLast, ShownAt;
    forall id, args ensures (id in out && out[id] == args) <==> ShownLast(r, good, calls, id, args) {
      ShownLastStep(r, good, calls, id, args);
    }
  }

  /** A call that changes the list of the todo_write at `p` shows it, when it has a text. */
  lemma {:induction false} ListShown(r: Rules, good: set<string>, calls: seq<ToolCall>, out: map<string, string>,
                                     p: nat)
    requires calls != [] && Changes(r, good, calls, p, |calls|)
    requires ShowsLast(r, good, calls[..|calls| - 1], out)
    ensures var text := r.renderTodos(ListAfter(r, good, calls, p, |calls|));
            var next := if text.Some? then out[calls[p].id := text.value] else out;
            ShowsLast(r, good, calls, next)
  {
    hide ShownLast, ListAfter, Lists;
    var text := r.renderTodos(ListAfter(r, good, calls, p, |calls|));
    var next := if text.Some? then out[calls[p].id := text.value] else out;
    forall q: nat | Changes(r, good, calls, q, |calls|) ensures q == p {
      OneCurrent(r, good, calls, p, q, |calls|);
    }
    forall id, args ensures (id in next && next[id] == args) <==> ShownLast(r, good, calls, id, args) {
      ShownLastStep(r, good, calls, id, args);
      if text.Some? {
        assert Shows(r, good, calls, calls[p].id, text.value, p, |calls|);
      }
    }
  }

  lemma {:induction false} NoChangeShowsNothing(r: Rules, good: set<string>, calls: seq<ToolCall>)
    requires forall p: nat :: !Changes(r, good, calls, p, |calls|)
    ensures forall id :: !ShownAt(r, good, calls, id, |calls|)
  {
    hide Changes;
  }

  lemma {:induction false} CurrentStep(r: Rules, good: set<string>, calls: seq<ToolCall>, p: nat)
    requires calls != []
    ensures var n := |calls|;
            Current(r, good, calls, p, n) <==>
            if Lists(r, good, calls[n - 1]) then p == n - 1 else Current(r, good, calls[..n - 1], p, n - 1)
  {
    hide Lists;
    PrefixAgrees(r, good, calls, p, |calls| - 1);
  }

  /** A successful todo_write that lists something. */
  lemma {:induction false} TracksList(r: Rules, good: set<string>, calls: seq<ToolCall>, st: Replay)
    requires calls != [] && "" !in good && Tracks(r, good, calls[..|calls| - 1], st)
    requires Lists(r, good, calls[|calls| - 1])
    ensures Tracks(r, good, calls, ReplayCall(r, good, st, calls[|calls| - 1]))
  {
    hide ShownLast, Current;
    var n := |calls|;
    forall p: nat ensures Current(r, good, calls, p, n) <==> p == n - 1 {
      CurrentStep(r, good, calls, p);
    }
    FreshList(r, good, calls, n - 1);
    ListShown(r, good, calls, st.out, n - 1);
  }

  /** A successful step, with a current list or without. */
  lemma {:induction false} TracksStep(r: Rules, good: set<string>, calls: seq<ToolCall>, st: Replay)
    requires calls != [] && "" !in good && Tracks(r, good, calls[..|calls| - 1], st)
    requires Completes(good, calls[|calls| - 1])
    ensures Tracks(r, good, calls, ReplayCall(r, good, st, calls[|calls| - 1]))
  {
    hide ShownLast, Current, ListAfter;
    var n, init := |calls|, calls[..|calls| - 1];
    forall p: nat ensures Current(r, good, calls, p, n) <==> Current(r, good, init, p, |init|) {
      CurrentStep(r, good, calls, p);
    }
    if p: nat :| Current(r, good, calls, p, n) {
      CurrentBefore(r, good, calls, p);
      ListStep(r, good, calls, p, n);
      PrefixAgrees(r, good, calls, p, n - 1);
      forall q: nat | Current(r, good, calls, q, n) ensures q == p {
        OneCurrent(r, good, calls, p, q, n);
      }
      if Changes(r, good, calls, p, n) {
        ListShown(r, good, calls, st.out, p);
      } else {
        NoChangeShowsNothing(r, good, calls);
        NothingShown(r, good, calls, st.out);
      }
    } else {
      NoChangeShowsNothing(r, good, calls);
      NothingShown(r, good, calls, st.out);
    }
  }

  lemma {:induction false} CurrentBefore(r: Rules, good: set<string>, calls: seq<ToolCall>, p: nat)
    requires calls != [] && Current(r, good, calls, p, |calls|) && !Lists(r, good, calls[|calls| - 1])
    ensures p + 1 < |calls| && calls[p] == calls[..|calls| - 1][p]
    ensures calls[p].id in good
  {
  }

  /** Any other call. */
  lemma {:induction false} TracksOther(r: Rules, good: set<string>, calls: seq<ToolCall>, st: Replay)
    requires calls != [] && "" !in good && Tracks(r, good, calls[..|calls| - 1], st)
    requires !Completes(good, calls[|calls| - 1]) && !Lists(r, good, calls[|calls| - 1])
    ensures Tracks(r, good, calls, ReplayCall(r, good, st, calls[|calls| - 1]))
  {
    hide ShownLast, Current, ListAfter, ReplayCall, ShowsLast, Lists, Completes;
    var n, init := |calls|, calls[..|calls| - 1];
    OtherIsSkipped(r, good, st, calls[n - 1]);
    forall p: nat ensures Current(r, good, calls, p, n) <==> Current(r, good, init, p, |init|) {
      CurrentStep(r, good, calls, p);
    }
    forall p: nat | Current(r, good, calls, p, n)
      ensures p + 1 < n && st.latest == calls[p].id && st.todos == ListAfter(r, good, calls, p, n)
    {
      CurrentBefore(r, good, calls, p);
      ListStep(r, good, calls, p, n);
      PrefixAgrees(r, good, calls, p, n - 1);
    }
    forall p: nat ensures !Changes(r, good, calls, p, n) {
    }
    NoChangeShowsNothing(r, good, calls);
    NothingShown(r, good, calls, st.out);
  }

  lemma {:induction false} OtherIsSkipped(r: Rules, good: set<string>, st: Replay, tc: ToolCall)
    requires "" !in good && !Completes(good, tc) && !Lists(r, good, tc)
    ensures ReplayCall(r, good, st, tc) == st
  {
  }

  /** The arguments the whole replay shows for a todo_write are what the calls of the transcript show
      last for it. */
  lemma {:induction false} TodoArgsAreShownLast(r: Rules, msgs: seq<Message>, good: set<string>, id: string,
                                                args: string)
    requires Good(r, msgs, good)
    ensures (id in TodoArgs(r, msgs) && TodoArgs(r, msgs)[id] == args) <==>
            ShownLast(r, good, CallsOf(msgs), id, args)
  {
    hide ShownLast, Succeeds;
    assert good == Successful(r, msgs) by {
      GoodIs(r, msgs, good);
    }
    ReplayFlat(r, good, msgs);
    ReplayTracks(r, good, CallsOf(msgs));
  }

  lemma {:induction false} GoodIs(r: Rules, msgs: seq<Message>, good: set<string>)
    requires Good(r, msgs, good)
    ensures good == Successful(r, msgs)
  {
    forall id ensures id in good <==> id in Successful(r, msgs) {
      if id in good {
        var i :| 0 <= i < |msgs| && msgs[i].role.Tool? && msgs[i].toolCallID == id && !r.failed(msgs[i].content);
        assert Succeeds(r, msgs[i]);
      }
    }
  }

  lemma {:induction false} ReplayTracks(r: Rules, good: set<string>, calls: seq<ToolCall>)
    requires "" !in good
    ensures Tracks(r, good, calls, ReplayCalls(r, good, START, calls))
  {
    hide ReplayCall, Tracks;
    if calls == [] {
      TracksStart(r, good);
    } else {
      ReplayTracks(r, good, calls[..|calls| - 1]);
      var st := ReplayCalls(r, good, START, calls[..|calls| - 1]);
      if Lists(r, good, calls[|calls| - 1]) {
        TracksList(r, good, calls, st);
      } else if Completes(good, calls[|calls| - 1]) {
        TracksStep(r, good, calls, st);
      } else {
        TracksOther(r, good, calls, st);
      }
    }
  }

  lemma {:induction false} TracksStart(r: Rules, good: set<string>)
    ensures Tracks(r, good, [], START)
  {
    forall id, args ensures !ShownLast(r, good, [], id, args) {
    }
  }

  // ---------------------------------------------------------------------------------
  // Only successful calls count
  // ---------------------------------------------------------------------------------

  /** Every id with replayed arguments is that of a todo_write that lists something and has a result
      that is no failure. */
  lemma {:induction false} ArgsAreOfSuccessfulLists(r: Rules, msgs: seq<Message>, id: string)
    requires id in TodoArgs(r, msgs)
    ensures id != "" && Answered(r, msgs, id)
    ensures exists k ::
              0 <= k < |CallsOf(msgs)| && CallsOf(msgs)[k].id == id && CallsOf(msgs)[k].name == "todo_write" &&
                        r.todosOf(CallsOf(msgs)[k].arguments) != []
  {
    hide TodoArgs, CallsOf, ListAfter;
    var good := GoodIds(r, msgs);
    TodoArgsAreShownLast(r, msgs, good, id, TodoArgs(r, msgs)[id]);
    var p: nat, k: nat :| k <= |CallsOf(msgs)| && Shows(r, good, CallsOf(msgs), id, TodoArgs(r, msgs)[id], p, k);
    assert Lists(r, good, CallsOf(msgs)[p]);
  }

  lemma {:induction false} GoodIds(r: Rules, msgs: seq<Message>) returns (good: set<string>)
    ensures Good(r, msgs, good)
  {
    hide Succeeds;
    good := set i | 0 <= i < |msgs| && Works(r, msgs[i]) :: msgs[i].toolCallID;
    forall id ensures id in good <==> id != "" && Answered(r, msgs, id) {
      if id != "" && Answered(r, msgs, id) {
        var i :| 0 <= i < |msgs| && msgs[i].role.Tool? && msgs[i].toolCallID == id && !r.failed(msgs[i].content);
        assert Works(r, msgs[i]);
      }
    }
  }

  predicate Works(r: Rules, m: Message) {
    m.role.Tool? && m.toolCallID != "" && !r.failed(m.content)
  }

  /** The calls of `msgs` that a result without a failure answers. */
  ghost function AnsweredCalls(r: Rules, msgs: seq<Message>, calls: seq<ToolCall>): seq<ToolCall> {
    if calls == [] then []
    else
      var init := AnsweredCalls(r, msgs, calls[..|calls| - 1]);
      if calls[|calls| - 1].id != "" && Answered(r, msgs, calls[|calls| - 1].id) then init + [calls[|calls| - 1]]
      else init
  }

  /** The same messages up to calls that failed or have no result. */
  ghost predicate SameUpToFailures(r: Rules, msgs: seq<Message>, other: seq<Message>) {
    && |msgs| == |other|
    && forall i :: 0 <= i < |msgs| ==>
         && other[i] == msgs[i].(toolCalls := other[i].toolCalls)
         && AnsweredCalls(r, msgs, other[i].toolCalls) == AnsweredCalls(r, msgs, msgs[i].toolCalls)
  }

  /** Adding or deleting calls that failed or have no result changes no replayed arguments. */
  lemma {:induction false} FailedCallsAreIgnored(r: Rules, msgs: seq<Message>, other: seq<Message>)
    requires SameUpToFailures(r, msgs, other)
    ensures TodoArgs(r, other) == TodoArgs(r, msgs)
  {
    hide ReplayAll, Succeeds;
    var good := GoodIds(r, msgs);
    GoodIs(r, msgs, good);
    SameAnswers(r, msgs, other, good);
    GoodIs(r, other, good);
    forall m: seq<Message> | m == msgs || m == other ensures TodoArgs(r, m) == ReplayAll(r, good, START, m).out {
    }
    SameReplay(r, msgs, other, good, |msgs|);
    FullSlice(msgs);
    FullSlice(other);
  }

  lemma {:induction false} SameAnswers(r: Rules, msgs: seq<Message>, other: seq<Message>, good: set<string>)
    requires SameUpToFailures(r, msgs, other) && Good(r, msgs, good)
    ensures Good(r, other, good)
  {
    forall id ensures Answered(r, msgs, id) <==> Answered(r, other, id) {
      if Answered(r, msgs, id) {
        var i :| 0 <= i < |msgs| && msgs[i].role.Tool? && msgs[i].toolCallID == id && !r.failed(msgs[i].content);
        assert other[i].role.Tool? && other[i].toolCallID == id && !r.failed(other[i].content);
      }
      if Answered(r, other, id) {
        var i :| 0 <= i < |other| && other[i].role.Tool? && other[i].toolCallID == id && !r.failed(other[i].content);
        assert msgs[i].role.Tool? && msgs[i].toolCallID == id && !r.failed(msgs[i].content);
      }
    }
  }

  lemma {:induction false} SameReplay(r: Rules, msgs: seq<Message>, other: seq<Message>, good: set<string>, n: nat)
    requires SameUpToFailures(r, msgs, other) && Good(r, msgs, good) && n <= |msgs|
    ensures ReplayAll(r, good, START, other[..n]) == ReplayAll(r, good, START, msgs[..n])
  {
    hide ReplayCalls, AnsweredCalls;
    if n > 0 {
      SameReplay(r, msgs, other, good, n - 1);
      assert msgs[..n][..n - 1] == msgs[..n - 1] && other[..n][..n - 1] == other[..n - 1];
      var st := ReplayAll(r, good, START, msgs[..n - 1]);
      ReplayAnswered(r, msgs, good, st, msgs[n - 1].toolCalls);
      ReplayAnswered(r, msgs, good, st, other[n - 1].toolCalls);
    }
  }

  lemma {:induction false} ReplayAnswered(r: Rules, msgs: seq<Message>, good: set<string>, st: Replay,
                                          calls: seq<ToolCall>)
    requires Good(r, msgs, good)
    ensures ReplayCalls(r, good, st, AnsweredCalls(r, msgs, calls)) == ReplayCalls(r, good, st, calls)
  {
    hide ReplayCall, Answered;
    if calls != [] {
      var last := calls[|calls| - 1];
      ReplayAnswered(r, msgs, good, st, calls[..|calls| - 1]);
      if last.id !in good {
        SkipsFailed(r, good, ReplayCalls(r, good, st, calls[..|calls| - 1]), last);
      } else {
        var kept := AnsweredCalls(r, msgs, calls);
        assert kept[..|kept| - 1] == AnsweredCalls(r, msgs, calls[..|calls| - 1]) && kept[|kept| - 1] == last;
      }
    }
  }

  lemma {:induction false} SkipsFailed(r: Rules, good: set<string>, st: Replay, tc: ToolCall)
    requires tc.id !in good
    ensures ReplayCall(r, good, st, tc) == st
  {
  }
}
