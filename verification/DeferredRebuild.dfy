/** The deferred rebuild queue and its single background retry loop.  Every critical section
    is one atomic step; retries run between two of them. */
module DeferredRebuild {
  datatype StopChannel = Unmade | Open | Closed

  /** deferredRebuildState; `spawned` counts the loops ever started. */
  datatype Queue = Queue(pending: map<string, string>, enabled: bool, running: bool, stopped: bool, stop: StopChannel,
    spawned: nat)

  const EMPTY := Queue(map[], false, false, false, Unmade, 0)

  /** startDeferredRebuildLoopLocked. */
  function LoopStarted(q: Queue): Queue {
    if !q.enabled || q.running || q.stopped || q.pending == map[] then q
    else q.(running := true, stop := if q.stop == Unmade then Open else q.stop, spawned := q.spawned + 1)
  }

  function Armed(q: Queue): Queue {
    LoopStarted(q.(enabled := true))
  }

  function Scheduled(q: Queue, trim: string -> string, tabID: string, setting: string): Queue {
    if trim(tabID) == "" || q.stopped then q
    else LoopStarted(q.(pending := q.pending[trim(tabID) := setting]))
  }

  function Cleared(q: Queue, tabID: string): Queue {
    q.(pending := q.pending - {tabID})
  }

  function Stopped(q: Queue): Queue {
    if q.stopped then q else q.(stopped := true, stop := if q.stop == Unmade then Unmade else Closed)
  }

  predicate TickEnds(q: Queue) {
    q.stopped || q.pending == map[]
  }

  function Idle(q: Queue): Queue {
    q.(running := false)
  }

  /** The bookkeeping updated in place under its mutex. */
  class DeferredRebuildState {
    var pending: map<string, string>
    var enabled: bool
    var running: bool
    var stopped: bool
    var stop: StopChannel
    var spawned: nat

    ghost function View(): Queue
      reads this
    {
      Queue(pending, enabled, running, stopped, stop, spawned)
    }

    constructor ()
      ensures View() == EMPTY
    {
      pending, enabled, running, stopped, stop, spawned := map[], false, false, false, Unmade, 0;
    }

    method StartDeferredRebuildLoopLocked()
      modifies this
      ensures View() == LoopStarted(old(View()))
    {
      if !enabled || running || stopped || |pending| == 0 {
        return;
      }
      running := true;
      if stop == Unmade {
        stop := Open;
      }
      spawned := spawned + 1;
    }

    method EnableDeferredRebuildRetry()
      modifies this
      ensures View() == Armed(old(View()))
    {
      enabled := true;
      StartDeferredRebuildLoopLocked();
    }

    method ScheduleDeferredRebuild(trim: string -> string, tabID: string, setting: string)
      modifies this
      ensures View() == Scheduled(old(View()), trim, tabID, setting)
    {
      var id := trim(tabID);
      if id == "" || stopped {
        return;
      }
      pending := pending[id := setting];
      StartDeferredRebuildLoopLocked();
    }

    method ClearDeferredRebuild(tabID: string)
      modifies this
      ensures View() == Cleared(old(View()), tabID)
    {
      pending := pending - {tabID};
    }

    method StopDeferredRebuildRetry()
      modifies this
      ensures View() == Stopped(old(View()))
    {
      if stopped {
        return;
      }
      stopped := true;
      if stop != Unmade {
        stop := Closed;
      }
    }

    /** The critical section of deferredRebuildTick: done, or the entries to retry. */
    method BeginTick(markIdle: bool) returns (done: bool, batch: map<string, string>)
      modifies this
      ensures done == TickEnds(old(View()))
      ensures View() == if done && markIdle then Idle(old(View())) else old(View())
      ensures !done ==> batch == old(pending)
    {
      if stopped || |pending| == 0 {
        if markIdle {
          running := false;
        }
        return true, map[];
      }
      return false, pending;
    }
  }

  // ---- Interleaved runs ----

  /** A loop between two ticks, or retrying the rest of a tick's snapshot. */
  datatype Worker = Waiting | Retrying(rest: map<string, string>)

  /** `loops` are the live background loops, `kicks` the ticks run outside them, `log` every
      entry the queue ever accepted. */
  datatype State = State(q: Queue, loops: seq<Worker>, kicks: seq<map<string, string>>, log: set<(string, string)>)

  datatype Step =
    | Enable
    | Schedule(tabID: string, setting: string)
    | Clear(tabID: string)
    | Stop
    | LoopSeesStop(k: nat)
    | LoopTick(k: nat)
    | LoopRetry(k: nat, tabID: string, clears: bool)
    | LoopReturns(k: nat)
    | Kick
    | KickRetry(k: nat, tabID: string, clears: bool)

  const START := State(EMPTY, [], [], {})

  function Drop<T>(s: seq<T>, k: nat): seq<T>
    requires k < |s|
  {
    s[..k] + s[k + 1..]
  }

  /** The worker of a loop spawned by this critical section joins the live ones. */
  function Spawned(st: State, q: Queue): State {
    st.(q := q, loops := if q.spawned > st.q.spawned then st.loops + [Waiting] else st.loops)
  }

  predicate CanTake(st: State, step: Step) {
    match step
    case Enable | Schedule(_, _) | Clear(_) | Stop | Kick => true
    case LoopSeesStop(k) => k < |st.loops| && st.loops[k].Waiting? && st.q.stop == Closed
    case LoopTick(k) => k < |st.loops| && st.loops[k].Waiting?
    case LoopRetry(k, tabID, _) => k < |st.loops| && st.loops[k].Retrying? && tabID in st.loops[k].rest
    case LoopReturns(k) => k < |st.loops| && st.loops[k] == Retrying(map[])
    case KickRetry(k, tabID, _) => k < |st.kicks| && tabID in st.kicks[k]
  }

  /** The step records an entry for the tab: blank tabs and a stopped queue record nothing. */
  predicate Accepts(st: State, step: Step, tabID: string, trim: string -> string) {
    step.Schedule? && trim(step.tabID) == tabID && tabID != "" && !st.q.stopped
  }

  function Next(st: State, step: Step, trim: string -> string): State
    requires CanTake(st, step)
  {
    match step
    case Enable => Spawned(st, Armed(st.q))
    case Schedule(tabID, setting) =>
      Spawned(st, Scheduled(st.q, trim, tabID, setting)).(
      log := if Accepts(st, step, trim(tabID), trim) then st.log + {(trim(tabID), setting)} else st.log)
    case Clear(tabID) => st.(q := Cleared(st.q, tabID))
    case Stop => st.(q := Stopped(st.q))
    case LoopSeesStop(k) => st.(q := Idle(st.q), loops := Drop(st.loops, k))
    case LoopTick(k) =>
      if TickEnds(st.q) then st.(q := Idle(st.q), loops := Drop(st.loops, k))
      else st.(loops := st.loops[k := Retrying(st.q.pending)])
    case LoopRetry(k, tabID, clears) =>
      st.(q := if clears then Cleared(st.q, tabID) else st.q,
      loops := st.loops[k := Retrying(st.loops[k].rest - {tabID})])
    case LoopReturns(k) => st.(loops := st.loops[k := Waiting])
    case Kick => if TickEnds(st.q) then st else st.(kicks := st.kicks + [st.q.pending])
    case KickRetry(k, tabID, clears) =>
      st.(q := if clears then Cleared(st.q, tabID) else st.q, kicks := st.kicks[k := st.kicks[k] - {tabID}])
  }

  /** Entries of a snapshot were recorded under a non-blank tab. */
  ghost predicate Recorded(entries: map<string, string>, log: set<(string, string)>) {
    forall tabID :: tabID in entries ==> tabID != "" && (tabID, entries[tabID]) in log
  }

  ghost predicate WorkerRecorded(w: Worker, log: set<(string, string)>) {
    w.Retrying? ==> Recorded(w.rest, log)
  }

  ghost predicate Inv(st: State) {
    // The running flag is the existence of the one loop.
    && |st.loops| == (if st.q.running then 1 else 0)
    // Work is never left without a loop.
    && (st.q.enabled && !st.q.stopped && st.q.pending != map[] ==> st.q.running)
    && (st.q.running ==> st.q.enabled && st.q.stop != Unmade)
    && (st.q.stop == Closed ==> st.q.stopped) && (st.q.stop == Open ==> !st.q.stopped)
    && Recorded(st.q.pending, st.log)
    && (forall k :: 0 <= k < |st.loops| ==> WorkerRecorded(st.loops[k], st.log))
    && (forall k :: 0 <= k < |st.kicks| ==> Recorded(st.kicks[k], st.log))
  }

  lemma {:induction false} StepKeepsInv(st: State, step: Step, trim: string -> string)
    requires Inv(st) && CanTake(st, step)
    ensures Inv(Next(st, step, trim))
  {
    var next := Next(st, step, trim);
    forall k | 0 <= k < |next.loops| ensures WorkerRecorded(next.loops[k], next.log) {
      if k < |st.loops| {
        assert WorkerRecorded(st.loops[k], st.log);
      }
    }
    forall k | 0 <= k < |next.kicks| ensures Recorded(next.kicks[k], next.log) {
      if k < |st.kicks| {
        assert Recorded(st.kicks[k], st.log);
      }
    }
  }

  ghost predicate Run(states: seq<State>, steps: seq<Step>, trim: string -> string) {
    && |states| == |steps| + 1
    && forall i :: 0 <= i < |steps| ==> CanTake(states[i], steps[i]) && states[i + 1] == Next(states[i], steps[i], trim)
  }

  lemma {:induction false} RunInv(states: seq<State>, steps: seq<Step>, trim: string -> string, i: nat)
    requires Run(states, steps, trim) && Inv(states[0]) && i < |states|
    ensures Inv(states[i])
  {
    if i > 0 {
      RunInv(states, steps, trim, i - 1);
      StepKeepsInv(states[i - 1], steps[i - 1], trim);
    }
  }

  /** In every state of every interleaving from the start: at most one loop is live, an armed
      queue with work has one, and whatever a loop or a kick retries was accepted, under a
      non-blank tab. */
  lemma {:induction false} EveryRunHasOneLoop(states: seq<State>, steps: seq<Step>, trim: string -> string, i: nat)
    requires Run(states, steps, trim) && states[0] == START && i < |states|
    ensures var st := states[i];
            && |st.loops| <= 1
            && (st.q.enabled && !st.q.stopped && st.q.pending != map[] ==> |st.loops| == 1)
            && (forall k :: 0 <= k < |st.loops| ==> WorkerRecorded(st.loops[k], st.log))
            && (forall k :: 0 <= k < |st.kicks| ==> Recorded(st.kicks[k], st.log))
            && Recorded(st.q.pending, st.log)
  {
    RunInv(states, steps, trim, i);
  }

  /** Before step `n` the label was accepted for the tab. */
  ghost predicate AcceptedBefore(states: seq<State>, steps: seq<Step>, trim: string -> string, n: nat, tabID: string,
                                 setting: string)
    requires n < |states| == |steps| + 1
  {
    exists m :: 0 <= m < n && Accepts(states[m], steps[m], tabID, trim) && steps[m].setting == setting
  }

  /** Whatever is pending, or is retried by a loop or a kick, was scheduled: under a tab id that trims to
      the tab, is not blank, and while the queue was not stopped. */
  lemma {:induction false} OnlyAcceptedIsRetried(states: seq<State>, steps: seq<Step>, trim: string -> string, i: nat,
                                                 tabID: string)
    requires Run(states, steps, trim) && states[0] == START && i < |states|
    ensures tabID in states[i].q.pending ==>
              tabID != "" && AcceptedBefore(states, steps, trim, i, tabID, states[i].q.pending[tabID])
    ensures forall k ::
              0 <= k < |states[i].loops| && states[i].loops[k].Retrying? && tabID in states[i].loops[k].rest ==>
              tabID != "" && AcceptedBefore(states, steps, trim, i, tabID, states[i].loops[k].rest[tabID])
    ensures forall k :: 0 <= k < |states[i].kicks| && tabID in states[i].kicks[k] ==>
              tabID != "" && AcceptedBefore(states, steps, trim, i, tabID, states[i].kicks[k][tabID])
  {
    hide AcceptedBefore, Next;
    EveryRunHasOneLoop(states, steps, trim, i);
    var st := states[i];
    forall setting | (tabID, setting) in st.log ensures AcceptedBefore(states, steps, trim, i, tabID, setting) {
      LogIsAccepted(states, steps, trim, i, tabID, setting);
    }
    forall k | 0 <= k < |st.loops| && st.loops[k].Retrying? && tabID in st.loops[k].rest
      ensures tabID != "" && (tabID, st.loops[k].rest[tabID]) in st.log
    {
      assert WorkerRecorded(st.loops[k], st.log);
    }
    forall k | 0 <= k < |st.kicks| && tabID in st.kicks[k]
      ensures tabID != "" && (tabID, st.kicks[k][tabID]) in st.log
    {
      assert Recorded(st.kicks[k], st.log);
    }
  }

  lemma {:induction false} LogIsAccepted(states: seq<State>, steps: seq<Step>, trim: string -> string, i: nat,
                                         tabID: string, setting: string)
    requires Run(states, steps, trim) && states[0] == START && i < |states|
    ensures (tabID, setting) in states[i].log <==> AcceptedBefore(states, steps, trim, i, tabID, setting)
  {
    hide Armed, Scheduled, Cleared, Stopped, Idle;
    if i > 0 {
      LogIsAccepted(states, steps, trim, i - 1, tabID, setting);
      var s := steps[i - 1];
      assert (tabID, setting) in states[i].log <==>
          (tabID, setting) in states[i - 1].log || (Accepts(states[i - 1], s, tabID, trim) && s.setting == setting);
    }
  }

  /** The queue is stopped exactly from the first stop on, and then a loop that waits sees it. */
  lemma {:induction false} StoppedIff(states: seq<State>, steps: seq<Step>, trim: string -> string, i: nat)
    requires Run(states, steps, trim) && states[0] == START && i < |states|
    ensures states[i].q.stopped <==> exists m :: 0 <= m < i && steps[m].Stop?
    ensures states[i].q.stopped ==>
              forall k :: 0 <= k < |states[i].loops| && states[i].loops[k].Waiting? ==>
                CanTake(states[i], LoopSeesStop(k))
  {
    hide Armed, Scheduled, Cleared, Idle;
    RunInv(states, steps, trim, i);
    if i > 0 {
      StoppedIff(states, steps, trim, i - 1);
      StopStep(states[i - 1], steps[i - 1], trim);
    }
  }

  lemma {:induction false} StopStep(st: State, step: Step, trim: string -> string)
    requires CanTake(st, step)
    ensures Next(st, step, trim).q.stopped <==> st.q.stopped || step.Stop?
  {
  }

  predicate Removes(step: Step, tabID: string) {
    || step == Clear(tabID)
    || (step.LoopRetry? && step.tabID == tabID && step.clears)
    || (step.KickRetry? && step.tabID == tabID && step.clears)
  }

  /** An entry stays, with its latest label, until it is cleared. */
  lemma {:induction false} EntryStays(states: seq<State>, steps: seq<Step>, trim: string -> string, tabID: string,
                                      i: nat, j: nat)
    requires Run(states, steps, trim) && i <= j < |states| && tabID in states[i].q.pending
    requires forall m :: i <= m < j ==> !Removes(steps[m], tabID) && !Accepts(states[m], steps[m], tabID, trim)
    ensures tabID in states[j].q.pending && states[j].q.pending[tabID] == states[i].q.pending[tabID]
    decreases j
  {
    hide Next;
    if i < j {
      EntryStays(states, steps, trim, tabID, i, j - 1);
      EntryStep(states[j - 1], steps[j - 1], trim, tabID);
    }
  }

  lemma {:induction false} EntryStep(st: State, step: Step, trim: string -> string, tabID: string)
    requires CanTake(st, step)
    ensures var next := Next(st, step, trim).q.pending;
            if Accepts(st, step, tabID, trim) then tabID in next && next[tabID] == step.setting
            else if Removes(step, tabID) then tabID !in next
            else (tabID in next <==> tabID in st.q.pending) && (tabID in next ==> next[tabID] == st.q.pending[tabID])
  {
  }

  /** The last thing that happened to the tab in steps [i, j) was that another label than `seen`
      was accepted for it. */
  ghost predicate Relabelled(states: seq<State>, steps: seq<Step>, trim: string -> string, tabID: string, seen: string,
                             i: nat, j: nat)
    requires i <= j < |states| == |steps| + 1
  {
    exists m :: i <= m < j && Accepts(states[m], steps[m], tabID, trim) && steps[m].setting != seen &&
      QuietSince(states, steps, trim, tabID, m + 1, j)
  }

  ghost predicate QuietSince(states: seq<State>, steps: seq<Step>, trim: string -> string, tabID: string, i: int,
                             j: nat)
    requires 0 <= i <= j < |states| == |steps| + 1
  {
    forall n :: i <= n < j ==> !Removes(steps[n], tabID) && !Accepts(states[n], steps[n], tabID, trim)
  }

  /** Since the label of a tab was `seen`, the queue has come to hold another label for it exactly
      when that was the last thing that happened to the tab. */
  lemma {:induction false} OtherLabelIff(states: seq<State>, steps: seq<Step>, trim: string -> string, tabID: string,
                                         seen: string, i: nat, j: nat)
    requires && Run(states, steps, trim) && i <= j < |states| && tabID in states[i].q.pending
             && states[i].q.pending[tabID] == seen
    ensures (tabID in states[j].q.pending && states[j].q.pending[tabID] != seen) <==>
              Relabelled(states, steps, trim, tabID, seen, i, j)
    decreases j
  {
    hide Next;
    if i < j {
      OtherLabelIff(states, steps, trim, tabID, seen, i, j - 1);
      EntryStep(states[j - 1], steps[j - 1], trim, tabID);
      var last := steps[j - 1];
      if Accepts(states[j - 1], last, tabID, trim) {
        assert QuietSince(states, steps, trim, tabID, j, j);
        if Relabelled(states, steps, trim, tabID, seen, i, j) {
          var m :| i <= m < j && Accepts(states[m], steps[m], tabID, trim) && steps[m].setting != seen &&
            QuietSince(states, steps, trim, tabID, m + 1, j);
          assert m == j - 1;
        }
      } else {
        RelabelledStep(states, steps, trim, tabID, seen, i, j);
      }
    }
  }

  lemma {:induction false} RelabelledStep(states: seq<State>, steps: seq<Step>, trim: string -> string, tabID: string,
                                          seen: string, i: nat, j: nat)
    requires i < j < |states| == |steps| + 1 && !Accepts(states[j - 1], steps[j - 1], tabID, trim)
    ensures Relabelled(states, steps, trim, tabID, seen, i, j) <==>
            !Removes(steps[j - 1], tabID) && Relabelled(states, steps, trim, tabID, seen, i, j - 1)
  {
    if Relabelled(states, steps, trim, tabID, seen, i, j) {
      var m :| i <= m < j && Accepts(states[m], steps[m], tabID, trim) && steps[m].setting != seen &&
        QuietSince(states, steps, trim, tabID, m + 1, j);
      assert m < j - 1 && QuietSince(states, steps, trim, tabID, m + 1, j - 1);
    }
    if !Removes(steps[j - 1], tabID) && Relabelled(states, steps, trim, tabID, seen, i, j - 1) {
      var m :| i <= m < j - 1 && Accepts(states[m], steps[m], tabID, trim) && steps[m].setting != seen &&
        QuietSince(states, steps, trim, tabID, m + 1, j - 1);
      assert QuietSince(states, steps, trim, tabID, m + 1, j);
    }
  }

  /** A kick takes its snapshot at step i and clears the tab at step j: the clear removes a label
      the retry never saw exactly when the tab was relabelled in between. */
  lemma {:induction false} KickClearsUnseenIff(states: seq<State>, steps: seq<Step>, trim: string -> string, i: nat,
                                               j: nat)
    requires Run(states, steps, trim) && i < j < |steps| && steps[i].Kick? && !TickEnds(states[i].q)
    requires steps[j].KickRetry? && steps[j].k == |states[i].kicks| && steps[j].clears
    ensures var tabID := steps[j].tabID;
            && tabID in states[i].q.pending && tabID !in states[j + 1].q.pending
            && ((tabID in states[j].q.pending && states[j].q.pending[tabID] != states[i].q.pending[tabID]) <==>
                Relabelled(states, steps, trim, tabID, states[i].q.pending[tabID], i, j))
  {
    var k, tabID := |states[i].kicks|, steps[j].tabID;
    KickKeepsSnapshot(states, steps, trim, i + 1, j, k);
    EntryStep(states[j], steps[j], trim, tabID);
    OtherLabelIff(states, steps, trim, tabID, states[i].q.pending[tabID], i, j);
  }

  lemma {:induction false} KickKeepsSnapshot(states: seq<State>, steps: seq<Step>, trim: string -> string, i: nat,
                                             j: nat, k: nat)
    requires Run(states, steps, trim) && i <= j < |states| && k < |states[i].kicks|
    ensures k < |states[j].kicks| && states[j].kicks[k].Keys <= states[i].kicks[k].Keys
    decreases j
  {
    if i < j {
      KickKeepsSnapshot(states, steps, trim, i, j - 1, k);
    }
  }

  /** The same for the loop, within one of its passes. */
  lemma {:induction false} LoopClearsUnseenIff(states: seq<State>, steps: seq<Step>, trim: string -> string, i: nat,
                                               j: nat)
    requires && Run(states, steps, trim) && Inv(states[0]) && i < j < |steps| && steps[i].LoopTick?
             && !TickEnds(states[i].q)
    requires steps[j].LoopRetry? && steps[j].clears && forall m :: i < m < j ==> !steps[m].LoopReturns?
    ensures var tabID := steps[j].tabID;
            && tabID in states[i].q.pending && tabID !in states[j + 1].q.pending
            && ((tabID in states[j].q.pending && states[j].q.pending[tabID] != states[i].q.pending[tabID]) <==>
                Relabelled(states, steps, trim, tabID, states[i].q.pending[tabID], i, j))
  {
    var tabID := steps[j].tabID;
    RunInv(states, steps, trim, i);
    LoopKeepsSnapshot(states, steps, trim, i + 1, j);
    EntryStep(states[j], steps[j], trim, tabID);
    OtherLabelIff(states, steps, trim, tabID, states[i].q.pending[tabID], i, j);
  }

  lemma {:induction false} LoopKeepsSnapshot(states: seq<State>, steps: seq<Step>, trim: string -> string, i: nat,
                                             j: nat)
    requires && Run(states, steps, trim) && Inv(states[0]) && i <= j < |states| && |states[i].loops| == 1
             && states[i].loops[0].Retrying?
    requires forall m :: i <= m < j ==> !steps[m].LoopReturns?
    ensures && |states[j].loops| == 1 && states[j].loops[0].Retrying?
            && states[j].loops[0].rest.Keys <= states[i].loops[0].rest.Keys
    decreases j
  {
    hide Next, Inv;
    if i < j {
      LoopKeepsSnapshot(states, steps, trim, i, j - 1);
      RunInv(states, steps, trim, j - 1);
      PassStep(states[j - 1], steps[j - 1], trim);
    }
  }

  lemma {:induction false} PassStep(st: State, step: Step, trim: string -> string)
    requires Inv(st) && CanTake(st, step) && |st.loops| == 1 && st.loops[0].Retrying? && !step.LoopReturns?
    ensures var next := Next(st, step, trim).loops;
            |next| == 1 && next[0].Retrying? && next[0].rest.Keys <= st.loops[0].rest.Keys
  {
    hide Recorded, WorkerRecorded;
  }

  /** Stopping is final: no loop is started and no entry is added any more. */
  lemma {:induction false} StopIsFinal(states: seq<State>, steps: seq<Step>, trim: string -> string, i: nat)
    requires Run(states, steps, trim) && states[0].q.stopped && i < |states|
    ensures states[i].q.stopped && states[i].q.spawned == states[0].q.spawned && |states[i].loops| <= |states[0].loops|
    ensures states[i].q.pending.Keys <= states[0].q.pending.Keys
  {
    if i > 0 {
      StopIsFinal(states, steps, trim, i - 1);
    }
  }

  function LoopWork(loops: seq<Worker>): nat {
    if loops == [] then 0
    else (match loops[0] case Waiting => 1 case Retrying(rest) => 2 + |rest|) + LoopWork(loops[1..])
  }

  predicate LoopStep(step: Step) {
    step.LoopSeesStop? || step.LoopTick? || step.LoopRetry? || step.LoopReturns?
  }

  /** After a stop the loop runs out of steps, and while it lives it has one to take. */
  lemma {:induction false} StoppedLoopEnds(st: State, step: Step, trim: string -> string)
    requires Inv(st) && st.q.stopped
    ensures LoopStep(step) && CanTake(st, step) ==> LoopWork(Next(st, step, trim).loops) < LoopWork(st.loops)
    ensures st.loops != [] ==> exists own :: LoopStep(own) && CanTake(st, own)
  {
    if st.loops != [] {
      var w := st.loops[0];
      assert st.loops == [w];
      if w.Waiting? {
        assert CanTake(st, LoopTick(0));
      } else if w.rest == map[] {
        assert CanTake(st, LoopReturns(0));
      } else {
        var tabID :| tabID in w.rest;
        assert CanTake(st, LoopRetry(0, tabID, false));
      }
      if step.LoopRetry? && CanTake(st, step) {
        var rest := w.rest - {step.tabID};
        assert w.rest == rest[step.tabID := w.rest[step.tabID]];
        assert |rest| < |w.rest| by {
          assert rest.Keys == w.rest.Keys - {step.tabID};
          assert |rest.Keys| == |rest| && |w.rest.Keys| == |w.rest|;
        }
      }
    }
  }

  /** A pass whose retries all clear their entries, with nothing recorded meanwhile. */
  predicate ClearingStep(step: Step) {
    (step.LoopRetry? && step.clears) || step.Clear? || step.Enable? || step.Stop? || (step.KickRetry? && step.clears) ||
      step.Kick?
  }

  lemma {:induction false} PassCovers(states: seq<State>, steps: seq<Step>, trim: string -> string, i: nat)
    requires Run(states, steps, trim) && Inv(states[0]) && i < |states| && forall j :: 0 <= j < |steps| ==>
               ClearingStep(steps[j])
    requires |states[0].loops| == 1 && states[0].loops[0] == Retrying(states[0].q.pending)
    ensures && |states[i].loops| == 1 && states[i].loops[0].Retrying?
            && states[i].q.pending.Keys <= states[i].loops[0].rest.Keys
  {
    hide Next, Inv;
    if i > 0 {
      PassCovers(states, steps, trim, i - 1);
      RunInv(states, steps, trim, i - 1);
      CoverStep(states[i - 1], steps[i - 1], trim);
    }
  }

  lemma {:induction false} CoverStep(st: State, step: Step, trim: string -> string)
    requires Inv(st) && CanTake(st, step) && ClearingStep(step)
    requires |st.loops| == 1 && st.loops[0].Retrying? && st.q.pending.Keys <= st.loops[0].rest.Keys
    ensures var next := Next(st, step, trim);
            |next.loops| == 1 && next.loops[0].Retrying? && next.q.pending.Keys <= next.loops[0].rest.Keys
  {
    hide Recorded, WorkerRecorded;
  }

  /** Such a pass, once through, leaves nothing pending: the next tick retires the loop. */
  lemma {:induction false} PassDrains(states: seq<State>, steps: seq<Step>, trim: string -> string)
    requires Run(states, steps, trim) && Inv(states[0]) && forall j :: 0 <= j < |steps| ==> ClearingStep(steps[j])
    requires |states[0].loops| == 1 && states[0].loops[0] == Retrying(states[0].q.pending)
    requires CanTake(states[|steps|], LoopReturns(0))
    ensures var back := Next(states[|steps|], LoopReturns(0), trim);
            back.q.pending == map[] && CanTake(back, LoopTick(0)) && Next(back, LoopTick(0), trim).loops == [] &&
              !Next(back, LoopTick(0), trim).q.running
  {
    PassCovers(states, steps, trim, |steps|);
    RunInv(states, steps, trim, |steps|);
    var last := states[|steps|];
    assert last.q.pending.Keys <= {};
    assert last.q.pending == map[];
    var back := Next(last, LoopReturns(0), trim);
    assert |back.loops| == 1;
    assert Drop(back.loops, 0) == [];
  }

  /** A kick must not mark the queue idle: if it did, an idle kick beside a waiting loop would
      let the next entry start a second one. */
  lemma {:induction false} IdleKickStartsSecondLoop(st: State, trim: string -> string)
    requires Inv(st) && st.loops == [Waiting] && st.q.pending == map[] && !st.q.stopped && trim("tab") == "tab"
    ensures |Next(st.(q := Idle(st.q)), Schedule("tab", "model"), trim).loops| == 2
    ensures |Next(st, Schedule("tab", "model"), trim).loops| == 1
  {
    assert st.q.pending["tab" := "model"] != map[] by {
      assert "tab" in st.q.pending["tab" := "model"];
    }
  }
}
