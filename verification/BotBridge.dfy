/** Watch subscriptions of the bot bridge: changes are made under one lock, persisted under
    another, and may be reseeded from the config file. */
module BotWatch {
  import opened Prelude

  type Routes = map<string, string>

  /** A SetWatch call between its steps: it holds the snapshot of its change; `Writing` and
      later stages hold the persist lock. */
  datatype Call =
    | Snapshotted(seqNo: nat, routes: Routes)
    | Writing(seqNo: nat, routes: Routes)
    | Stored(seqNo: nat)
    | Published(seqNo: nat)
    | Returned(persisted: bool)

  /** A seedWatchers refresh: the version read first, then the config it will apply. */
  datatype Seed = VersionRead(version: nat) | ConfigRead(version: nat, routes: Routes) | Seeded

  /** `stored` is what the config file holds, `edited` whether someone else has changed it since the
      hub last wrote it; `taken[n]` is the snapshot of change `n`. */
  datatype Hub = Hub(
    watchers: Routes, watchSeq: nat, dirty: bool, lastPersistSeq: nat, stored: Routes, edited: bool,
    calls: seq<Call>, seeds: seq<Seed>, taken: seq<Routes>, failures: nat)

  datatype Step =
    | Change(key: string, route: string, enable: bool)
    | Acquire(call: nat)
    | Persist(call: nat, ok: bool)
    | Publish(call: nat)
    | Clear(call: nat)
    | ReadVersion
    | ReadConfig(seed: nat)
    | Apply(seed: nat)
    | Edit(routes: Routes)

  predicate HoldsLock(c: Call) {
    c.Writing? || c.Stored? || c.Published?
  }

  predicate LockFree(h: Hub) {
    forall i :: 0 <= i < |h.calls| ==> !HoldsLock(h.calls[i])
  }

  predicate Enabled(h: Hub, s: Step) {
    match s
    case Change(_, _, _) => true
    case Acquire(c) => c < |h.calls| && h.calls[c].Snapshotted? && LockFree(h)
    case Persist(c, _) => c < |h.calls| && h.calls[c].Writing?
    case Publish(c) => c < |h.calls| && h.calls[c].Stored?
    case Clear(c) => c < |h.calls| && h.calls[c].Published?
    case ReadVersion => true
    case ReadConfig(i) => i < |h.seeds| && h.seeds[i].VersionRead?
    case Apply(i) => i < |h.seeds| && h.seeds[i].ConfigRead? && LockFree(h)
    case Edit(_) => true
  }

  function Next(h: Hub, s: Step): Hub
    requires Enabled(h, s)
  {
    match s
    case Change(key, route, enable) =>
      var watchers := if enable then h.watchers[key := route] else h.watchers - {key};
      h.(watchers := watchers, watchSeq := h.watchSeq + 1, dirty := true, taken := h.taken + [watchers],
      calls := h.calls + [Snapshotted(h.watchSeq + 1, watchers)])
    case Acquire(c) =>
      var stale := h.calls[c].seqNo <= h.lastPersistSeq;
      h.(calls := h.calls[c := if stale then Returned(true) else Writing(h.calls[c].seqNo, h.calls[c].routes)])
    case Persist(c, ok) =>
      if ok then h.(stored := h.calls[c].routes, edited := false, calls := h.calls[c := Stored(h.calls[c].seqNo)])
      else h.(calls := h.calls[c := Returned(false)], failures := h.failures + 1)
    case Publish(c) => h.(lastPersistSeq := h.calls[c].seqNo, calls := h.calls[c := Published(h.calls[c].seqNo)])
    case Clear(c) =>
      h.(dirty := h.dirty && h.watchSeq != h.calls[c].seqNo, calls := h.calls[c := Returned(true)])
    case ReadVersion => h.(seeds := h.seeds + [VersionRead(h.watchSeq)])
    case ReadConfig(i) => h.(seeds := h.seeds[i := ConfigRead(h.seeds[i].version, h.stored)])
    case Apply(i) =>
      h.(watchers := if h.watchSeq != h.seeds[i].version || h.dirty then h.watchers else h.seeds[i].routes,
      seeds := h.seeds[i := Seeded])
    case Edit(routes) => h.(stored := routes, edited := true)
  }

  function Start(watchers: Routes): Hub {
    Hub(watchers, 0, false, 0, watchers, false, [], [], [], 0)
  }

  /** Snapshot number `n`; snapshot 0 is the set the hub started with. */
  function Taken(h: Hub, initial: Routes, n: nat): Routes
    requires n <= |h.taken|
  {
    if n == 0 then initial else h.taken[n - 1]
  }

  /** The newest set of routes anyone asked for. */
  function Newest(h: Hub, initial: Routes): Routes {
    if h.taken == [] then initial else h.taken[|h.taken| - 1]
  }

  predicate CallOk(h: Hub, c: Call) {
    match c
    case Snapshotted(n, routes) => 0 < n <= |h.taken| && routes == h.taken[n - 1] && n != h.lastPersistSeq
    case Writing(n, routes) => h.lastPersistSeq < n <= |h.taken| && routes == h.taken[n - 1]
    case Stored(n) => h.lastPersistSeq < n <= |h.taken| && (h.edited || h.stored == h.taken[n - 1])
    case Published(n) => h.lastPersistSeq == n && 0 < n <= |h.taken| && (h.edited || h.stored == h.taken[n - 1])
    case Returned(_) => true
  }

  /** A call that may still persist change `n`. */
  predicate Carries(c: Call, n: nat) {
    (c.Snapshotted? || c.Writing? || c.Stored?) && c.seqNo == n
  }

  /** The newest change is waiting, being written, or persisted. */
  ghost predicate NewestInHand(h: Hub) {
    h.lastPersistSeq == h.watchSeq || exists i :: 0 <= i < |h.calls| && Carries(h.calls[i], h.watchSeq)
  }

  predicate SeedOk(h: Hub, s: Seed) {
    s.Seeded? || s.version <= h.watchSeq
  }

  predicate Apart(c: Call, d: Call) {
    !(HoldsLock(c) && HoldsLock(d)) && (c.Returned? || d.Returned? || c.seqNo != d.seqNo)
  }

  /** What every run keeps, whatever its refreshes do. */
  ghost predicate Inv(h: Hub, initial: Routes) {
    && |h.taken| == h.watchSeq && h.lastPersistSeq <= h.watchSeq
    && (forall i :: 0 <= i < |h.calls| ==> CallOk(h, h.calls[i]))
    && (forall i, j :: 0 <= i < j < |h.calls| ==> Apart(h.calls[i], h.calls[j]))
    && (NoneStored(h) && !h.edited ==> h.stored == Taken(h, initial, h.lastPersistSeq))
    && (!h.dirty ==> h.lastPersistSeq == h.watchSeq && LockFree(h))
    && (h.failures == 0 ==> NewestInHand(h))
    && (forall i :: 0 <= i < |h.seeds| ==> SeedOk(h, h.seeds[i]))
  }

  ghost predicate NoneStored(h: Hub) {
    forall i :: 0 <= i < |h.calls| ==> !h.calls[i].Stored?
  }

  lemma {:induction false} ChangeKeeps(h: Hub, key: string, route: string, enable: bool, initial: Routes)
    requires Inv(h, initial)
    ensures Inv(Next(h, Change(key, route, enable)), initial)
  {
    var n := Next(h, Change(key, route, enable));
    assert Carries(n.calls[|h.calls|], n.watchSeq);
    forall i | 0 <= i < |n.calls| ensures CallOk(n, n.calls[i]) {
      if i < |h.calls| {
        assert CallOk(h, h.calls[i]);
      }
    }
    if NoneStored(n) {
      assert forall i :: 0 <= i < |h.calls| ==> h.calls[i] == n.calls[i];
    }
    forall i, j | 0 <= i < j < |n.calls| ensures Apart(n.calls[i], n.calls[j]) {
      assert CallOk(h, h.calls[i]);
      if j < |h.calls| {
        assert Apart(h.calls[i], h.calls[j]);
      }
    }
    forall i | 0 <= i < |n.seeds| ensures SeedOk(n, n.seeds[i]) {
      assert SeedOk(h, h.seeds[i]);
    }
  }

  /** A step of one call that leaves changes alone keeps the rest of the calls. */
  lemma {:induction false} CallMoves(h: Hub, n: Hub, c: nat, initial: Routes)
    requires Inv(h, initial) && c < |h.calls|
    requires n.watchSeq == h.watchSeq && n.taken == h.taken && |n.calls| == |h.calls| && n.failures >= h.failures
    requires forall i :: 0 <= i < |h.calls| && i != c ==> n.calls[i] == h.calls[i]
    requires h.lastPersistSeq <= n.lastPersistSeq <= h.watchSeq
    requires Carries(h.calls[c], h.watchSeq) && n.failures == 0 ==>
               Carries(n.calls[c], h.watchSeq) || n.lastPersistSeq == h.watchSeq
    requires HoldsLock(n.calls[c]) ==> HoldsLock(h.calls[c]) || LockFree(h)
    requires n.calls[c].Returned? || (!h.calls[c].Returned? && n.calls[c].seqNo == h.calls[c].seqNo)
    requires (n.lastPersistSeq == h.lastPersistSeq && n.stored == h.stored && n.edited == h.edited) ||
               HoldsLock(h.calls[c])
    requires n.lastPersistSeq == h.lastPersistSeq || (!h.calls[c].Returned? && n.lastPersistSeq == h.calls[c].seqNo)
    requires CallOk(n, n.calls[c])
    ensures forall i :: 0 <= i < |n.calls| ==> CallOk(n, n.calls[i])
    ensures forall i, j :: 0 <= i < j < |n.calls| ==> Apart(n.calls[i], n.calls[j])
    ensures n.failures == 0 ==> NewestInHand(n)
  {
    forall i | 0 <= i < |n.calls| && i != c ensures Apart(h.calls[i], h.calls[c]) {
      assert if i < c then Apart(h.calls[i], h.calls[c]) else Apart(h.calls[c], h.calls[i]);
    }
    forall i | 0 <= i < |n.calls| ensures CallOk(n, n.calls[i]) {
      if i != c {
        assert CallOk(h, h.calls[i]) && Apart(h.calls[i], h.calls[c]);
      }
    }
    forall i, j | 0 <= i < j < |n.calls| ensures Apart(n.calls[i], n.calls[j]) {
      assert Apart(h.calls[i], h.calls[j]);
    }
    if n.failures == 0 && n.lastPersistSeq != n.watchSeq {
      var i :| 0 <= i < |h.calls| && Carries(h.calls[i], h.watchSeq);
      assert Carries(n.calls[i], n.watchSeq);
    }
  }

  lemma {:induction false} OthersUnlocked(h: Hub, c: nat, initial: Routes)
    requires Inv(h, initial) && c < |h.calls| && HoldsLock(h.calls[c])
    ensures forall i :: 0 <= i < |h.calls| && i != c ==> !HoldsLock(h.calls[i])
  {
    forall i | 0 <= i < |h.calls| && i != c ensures !HoldsLock(h.calls[i]) {
      assert if i < c then Apart(h.calls[i], h.calls[c]) else Apart(h.calls[c], h.calls[i]);
    }
  }

  lemma {:induction false} AcquireKeeps(h: Hub, c: nat, initial: Routes)
    requires Inv(h, initial) && Enabled(h, Acquire(c))
    ensures Inv(Next(h, Acquire(c)), initial)
  {
    var n := Next(h, Acquire(c));
    assert CallOk(h, h.calls[c]);
    CallMoves(h, n, c, initial);
    assert forall i :: 0 <= i < |n.calls| && i != c ==> n.calls[i] == h.calls[i];
    if NoneStored(n) {
      assert NoneStored(h);
    }
    forall i | 0 <= i < |n.seeds| ensures SeedOk(n, n.seeds[i]) {
      assert SeedOk(h, h.seeds[i]);
    }
  }

  lemma {:induction false} PersistKeeps(h: Hub, c: nat, ok: bool, initial: Routes)
    requires Inv(h, initial) && Enabled(h, Persist(c, ok))
    ensures Inv(Next(h, Persist(c, ok)), initial)
  {
    var n := Next(h, Persist(c, ok));
    assert CallOk(h, h.calls[c]) && HoldsLock(h.calls[c]);
    OthersUnlocked(h, c, initial);
    CallMoves(h, n, c, initial);
    if ok {
      assert n.calls[c].Stored?;
    }
    forall i | 0 <= i < |n.seeds| ensures SeedOk(n, n.seeds[i]) {
      assert SeedOk(h, h.seeds[i]);
    }
  }

  lemma {:induction false} PublishKeeps(h: Hub, c: nat, initial: Routes)
    requires Inv(h, initial) && Enabled(h, Publish(c))
    ensures Inv(Next(h, Publish(c)), initial) && Next(h, Publish(c)).lastPersistSeq >= h.lastPersistSeq
  {
    var n := Next(h, Publish(c));
    assert CallOk(h, h.calls[c]) && HoldsLock(h.calls[c]);
    OthersUnlocked(h, c, initial);
    CallMoves(h, n, c, initial);
    forall i | 0 <= i < |n.seeds| ensures SeedOk(n, n.seeds[i]) {
      assert SeedOk(h, h.seeds[i]);
    }
  }

  lemma {:induction false} ClearKeeps(h: Hub, c: nat, initial: Routes)
    requires Inv(h, initial) && Enabled(h, Clear(c))
    ensures Inv(Next(h, Clear(c)), initial) && LockFree(Next(h, Clear(c)))
  {
    var n := Next(h, Clear(c));
    assert CallOk(h, h.calls[c]) && HoldsLock(h.calls[c]);
    OthersUnlocked(h, c, initial);
    CallMoves(h, n, c, initial);
    forall i | 0 <= i < |n.seeds| ensures SeedOk(n, n.seeds[i]) {
      assert SeedOk(h, h.seeds[i]);
    }
  }

  lemma {:induction false} SeedKeeps(h: Hub, s: Step, initial: Routes)
    requires Inv(h, initial) && Enabled(h, s) && (s.ReadVersion? || s.ReadConfig? || s.Apply? || s.Edit?)
    ensures Inv(Next(h, s), initial)
  {
    var n := Next(h, s);
    forall i | 0 <= i < |n.calls| ensures CallOk(n, n.calls[i]) {
      assert CallOk(h, h.calls[i]);
    }
    assert NoneStored(n) ==> NoneStored(h);
    forall i | 0 <= i < |n.seeds| ensures SeedOk(n, n.seeds[i]) {
      if i < |h.seeds| {
        assert SeedOk(h, h.seeds[i]);
      }
    }
    if h.failures == 0 && h.lastPersistSeq != h.watchSeq {
      var i :| 0 <= i < |h.calls| && Carries(h.calls[i], h.watchSeq);
      assert Carries(n.calls[i], n.watchSeq);
    }
  }

  /** Every step of every call and every refresh keeps the invariant. */
  lemma {:induction false} StepKeepsInv(h: Hub, s: Step, initial: Routes)
    requires Inv(h, initial) && Enabled(h, s)
    ensures Inv(Next(h, s), initial)
    ensures Next(h, s).lastPersistSeq >= h.lastPersistSeq
  {
    match s
    case Change(key, route, enable) => ChangeKeeps(h, key, route, enable, initial);
    case Acquire(c) => AcquireKeeps(h, c, initial);
    case Persist(c, ok) => PersistKeeps(h, c, ok, initial);
    case Publish(c) => PublishKeeps(h, c, initial);
    case Clear(c) => ClearKeeps(h, c, initial);
    case _ => SeedKeeps(h, s, initial);
  }

  /** A run from a freshly started hub, with any calls, any refreshes and any edits of the file by
      others. */
  ghost predicate Run(states: seq<Hub>, steps: seq<Step>, initial: Routes) {
    && |states| == |steps| + 1 && states[0] == Start(initial)
    && forall i :: 0 <= i < |steps| ==> Enabled(states[i], steps[i]) && states[i + 1] == Next(states[i], steps[i])
  }

  lemma {:induction false} RunInv(states: seq<Hub>, steps: seq<Step>, initial: Routes, i: nat)
    requires Run(states, steps, initial) && i < |states|
    ensures Inv(states[i], initial)
  {
    if i > 0 {
      RunInv(states, steps, initial, i - 1);
      StepKeepsInv(states[i - 1], steps[i - 1], initial);
    }
  }

  /** In every state of every interleaving: persisted versions only grow and never run ahead of
      changes; and unless someone else has edited the file since, a clean hub has stored the newest
      set, and while no call is between writing and publishing the stored set is the snapshot of
      the last published change. */
  lemma {:induction false} StoredNeverGoesBack(states: seq<Hub>, steps: seq<Step>, initial: Routes, i: nat)
    requires Run(states, steps, initial) && i < |states|
    ensures var h := states[i];
            && h.lastPersistSeq <= h.watchSeq == |h.taken|
            && (!h.dirty ==> h.lastPersistSeq == h.watchSeq)
            && (!h.dirty && !h.edited ==> h.stored == Newest(h, initial))
            && (LockFree(h) && !h.edited ==> h.stored == Taken(h, initial, h.lastPersistSeq))
    ensures i > 0 ==> states[i - 1].lastPersistSeq <= states[i].lastPersistSeq
  {
    hide Next, Enabled;
    RunInv(states, steps, initial, i);
    UnlockedStored(states[i], initial);
    if i > 0 {
      RunInv(states, steps, initial, i - 1);
      StepKeepsInv(states[i - 1], steps[i - 1], initial);
    }
  }

  lemma {:induction false} UnlockedStored(h: Hub, initial: Routes)
    requires Inv(h, initial)
    ensures LockFree(h) && !h.edited ==> h.stored == Taken(h, initial, h.lastPersistSeq)
    ensures !h.dirty && !h.edited ==> h.stored == Newest(h, initial)
  {
    if LockFree(h) {
      assert NoneStored(h);
    }
  }

  /** Once all calls have returned and no write failed, the newest set has been written, and is
      stored unless someone else has edited the file since. */
  lemma {:induction false} QuietHubIsPersisted(states: seq<Hub>, steps: seq<Step>, initial: Routes, i: nat)
    requires Run(states, steps, initial) && i < |states|
    requires states[i].failures == 0 && forall k :: 0 <= k < |states[i].calls| ==> states[i].calls[k].Returned?
    ensures states[i].lastPersistSeq == states[i].watchSeq
    ensures !states[i].edited ==> states[i].stored == Newest(states[i], initial)
  {
    RunInv(states, steps, initial, i);
    UnlockedStored(states[i], initial);
  }

  // ---------------------------------------------------------------------------------
  // Refreshes
  // ---------------------------------------------------------------------------------

  /** Applying refresh `i` now replaces the newest set by another one. */
  predicate Undoes(h: Hub, i: nat, initial: Routes) {
    && i < |h.seeds| && h.seeds[i].ConfigRead? && h.seeds[i].version == h.watchSeq && !h.dirty
    && h.seeds[i].routes != Newest(h, initial)
  }

  /** The watched set is the newest one until a refresh undoes it. */
  lemma {:induction false} WatchedIsNewest(states: seq<Hub>, steps: seq<Step>, initial: Routes, i: nat)
    requires Run(states, steps, initial) && i < |states|
    requires forall k :: 0 <= k < i && steps[k].Apply? ==> !Undoes(states[k], steps[k].seed, initial)
    ensures states[i].watchers == Newest(states[i], initial)
  {
    hide Next, Undoes;
    if i > 0 {
      WatchedIsNewest(states, steps, initial, i - 1);
      WatchStep(states[i - 1], steps[i - 1], initial);
    }
  }

  lemma {:induction false} WatchStep(h: Hub, s: Step, initial: Routes)
    requires Enabled(h, s) && h.watchers == Newest(h, initial) && (s.Apply? ==> !Undoes(h, s.seed, initial))
    ensures Next(h, s).watchers == Newest(Next(h, s), initial)
  {
  }

  /** Some continuation lets refresh `i` replace the newest set by another one. */
  ghost predicate CanUndo(h: Hub, i: nat, initial: Routes) {
    exists steps, end :: RunsTo(h, steps, end) && Enabled(end, Apply(i)) && Undoes(end, i, initial)
  }

  /** The hub is clean, or a call can still persist the newest change and clear the flag. */
  ghost predicate CanClean(h: Hub) {
    !h.dirty || exists c :: 0 <= c < |h.calls| && Cleans(h.calls[c], h.watchSeq)
  }

  predicate Cleans(c: Call, n: nat) {
    Carries(c, n) || (c.Published? && c.seqNo == n)
  }

  /** A refresh that has read version v and routes c can undo a change in some continuation
      exactly when v is still current, c is not the newest set, and the hub is clean or can
      still become so. */
  lemma {:induction false} RefreshUndoesIff(h: Hub, i: nat, initial: Routes)
    requires Inv(h, initial) && i < |h.seeds| && h.seeds[i].ConfigRead?
    ensures CanUndo(h, i, initial) <==>
            h.seeds[i].version == h.watchSeq && h.seeds[i].routes != Newest(h, initial) && CanClean(h)
  {
    hide Inv, RunsTo, CanClean;
    if h.seeds[i].version == h.watchSeq && h.seeds[i].routes != Newest(h, initial) && CanClean(h) {
      var steps, end := BecomesClean(h, initial);
      assert Undoes(end, i, initial);
    }
    if CanUndo(h, i, initial) {
      var steps, end :| RunsTo(h, steps, end) && Enabled(end, Apply(i)) && Undoes(end, i, initial);
      UndoNeeds(h, i, initial, steps, end);
    }
  }

  lemma {:induction false} UndoNeeds(h: Hub, i: nat, initial: Routes, steps: seq<Step>, end: Hub)
    requires && Inv(h, initial) && i < |h.seeds| && h.seeds[i].ConfigRead? && RunsTo(h, steps, end)
             && Undoes(end, i, initial)
    ensures h.seeds[i].version == h.watchSeq && h.seeds[i].routes != Newest(h, initial) && CanClean(h)
  {
    hide RunsTo;
    Monotone(h, steps, end, i, initial);
    assert SeedOk(h, h.seeds[i]);
    if !CanClean(h) {
      StuckStays(h, steps, end, initial);
    }
  }

  /** Changes only add versions, and a config once read is what a refresh applies. */
  lemma {:induction false} Monotone(h: Hub, steps: seq<Step>, end: Hub, i: nat, initial: Routes)
    requires RunsTo(h, steps, end) && i < |h.seeds| && h.seeds[i].ConfigRead? && |h.taken| == h.watchSeq
    ensures && h.watchSeq <= end.watchSeq && |end.taken| == end.watchSeq
            && (h.watchSeq == end.watchSeq ==> h.taken == end.taken)
    ensures i < |end.seeds| && (end.seeds[i] == h.seeds[i] || end.seeds[i].Seeded?)
    decreases |steps|
  {
    hide Next;
    if steps != [] {
      MonotoneStep(h, steps[0], i);
      var next := Next(h, steps[0]);
      if next.seeds[i].ConfigRead? {
        Monotone(next, steps[1..], end, i, initial);
      } else {
        SeededStays(next, steps[1..], end, i);
      }
    }
  }

  lemma {:induction false} MonotoneStep(h: Hub, s: Step, i: nat)
    requires Enabled(h, s) && i < |h.seeds| && !h.seeds[i].VersionRead? && |h.taken| == h.watchSeq
    ensures var next := Next(h, s);
            && h.watchSeq <= next.watchSeq && |next.taken| == next.watchSeq
            && (h.watchSeq == next.watchSeq ==> h.taken == next.taken)
            && i < |next.seeds| && (next.seeds[i] == h.seeds[i] || next.seeds[i].Seeded?)
  {
  }

  lemma {:induction false} SeededStays(h: Hub, steps: seq<Step>, end: Hub, i: nat)
    requires RunsTo(h, steps, end) && i < |h.seeds| && h.seeds[i].Seeded? && |h.taken| == h.watchSeq
    ensures && h.watchSeq <= end.watchSeq && |end.taken| == end.watchSeq
            && (h.watchSeq == end.watchSeq ==> h.taken == end.taken)
    ensures i < |end.seeds| && end.seeds[i].Seeded?
    decreases |steps|
  {
    hide Next;
    if steps != [] {
      MonotoneStep(h, steps[0], i);
      SeededStays(Next(h, steps[0]), steps[1..], end, i);
    }
  }

  lemma {:induction false} VersionsGrow(h: Hub, steps: seq<Step>, end: Hub)
    requires RunsTo(h, steps, end)
    ensures h.watchSeq <= end.watchSeq
    decreases |steps|
  {
    if steps != [] {
      VersionsGrow(Next(h, steps[0]), steps[1..], end);
    }
  }

  /** Without a call for the newest change the hub stays dirty until the next change. */
  lemma {:induction false} StuckStays(h: Hub, steps: seq<Step>, end: Hub, initial: Routes)
    requires Inv(h, initial) && RunsTo(h, steps, end) && end.watchSeq == h.watchSeq && !CanClean(h)
    ensures !CanClean(end)
    decreases |steps|
  {
    if steps != [] {
      var next := Next(h, steps[0]);
      StepKeepsInv(h, steps[0], initial);
      VersionsGrow(next, steps[1..], end);
      assert next.watchSeq == h.watchSeq;
      StuckStep(h, steps[0]);
      StuckStays(next, steps[1..], end, initial);
    }
  }

  lemma {:induction false} StuckStep(h: Hub, s: Step)
    requires Enabled(h, s) && Next(h, s).watchSeq == h.watchSeq && !CanClean(h)
    ensures !CanClean(Next(h, s))
  {
    var n := Next(h, s);
    forall c | 0 <= c < |n.calls| ensures !Cleans(n.calls[c], n.watchSeq) {
      assert !Cleans(h.calls[c], h.watchSeq);
    }
    if s.Clear? {
      assert !Cleans(h.calls[s.call], h.watchSeq);
    }
  }

  /** Everything but calls and persistence is untouched. */
  predicate SameChanges(h: Hub, n: Hub) {
    n.watchSeq == h.watchSeq && n.taken == h.taken && n.seeds == h.seeds && n.watchers == h.watchers &&
      |n.calls| == |h.calls|
  }

  /** A call that holds the persist lock runs to its end. */
  lemma {:induction false} Release(h: Hub, c: nat, initial: Routes) returns (steps: seq<Step>, end: Hub)
    requires Inv(h, initial) && c < |h.calls| && HoldsLock(h.calls[c])
    ensures RunsTo(h, steps, end) && Inv(end, initial) && SameChanges(h, end) && LockFree(end)
    ensures forall k :: 0 <= k < |h.calls| && k != c ==> end.calls[k] == h.calls[k]
    ensures end.lastPersistSeq == h.calls[c].seqNo
    ensures end.dirty == (h.dirty && h.calls[c].seqNo != h.watchSeq) && (!h.edited ==> !end.edited)
    decreases if h.calls[c].Writing? then 3 else if h.calls[c].Stored? then 2 else 1
  {
    hide Inv, Next, Enabled, RunsTo, HoldsLock;
    var s := NextStage(h, c, initial);
    var next := Next(h, s);
    if s.Clear? {
      steps, end := [s], next;
      RunOne(h, s);
    } else {
      var rest;
      rest, end := Release(next, c, initial);
      steps := [s] + rest;
      RunStep(h, s, rest, end);
    }
  }

  /** The next step of the call that holds the lock. */
  lemma {:induction false} NextStage(h: Hub, c: nat, initial: Routes) returns (s: Step)
    requires Inv(h, initial) && c < |h.calls| && HoldsLock(h.calls[c])
    ensures Enabled(h, s) && Inv(Next(h, s), initial) && SameChanges(h, Next(h, s))
    ensures s == if h.calls[c].Writing? then Persist(c, true) else if h.calls[c].Stored? then Publish(c) else Clear(c)
    ensures forall k :: 0 <= k < |h.calls| && k != c ==> Next(h, s).calls[k] == h.calls[k]
    ensures !h.edited ==> !Next(h, s).edited
    ensures !s.Clear? ==>
              && HoldsLock(Next(h, s).calls[c]) && Next(h, s).calls[c].seqNo == h.calls[c].seqNo
              && Next(h, s).dirty == h.dirty
              && (if h.calls[c].Writing? then Next(h, s).calls[c].Stored? else Next(h, s).calls[c].Published?)
    ensures s.Clear? ==>
              && LockFree(Next(h, s)) && Next(h, s).lastPersistSeq == h.calls[c].seqNo
              && Next(h, s).dirty == (h.dirty && h.calls[c].seqNo != h.watchSeq)
  {
    assert CallOk(h, h.calls[c]);
    s := if h.calls[c].Writing? then Persist(c, true) else if h.calls[c].Stored? then Publish(c) else Clear(c);
    StepKeepsInv(h, s, initial);
    if s.Clear? {
      ClearKeeps(h, c, initial);
    }
  }

  lemma {:induction false} RunOne(h: Hub, s: Step)
    requires Enabled(h, s)
    ensures RunsTo(h, [s], Next(h, s))
  {
    assert RunsTo(Next(h, s), [], Next(h, s));
    RunStep(h, s, [], Next(h, s));
    assert [s] + [] == [s];
  }

  lemma {:induction false} RunsConcat(h: Hub, a: seq<Step>, mid: Hub, b: seq<Step>, end: Hub)
    requires RunsTo(h, a, mid) && RunsTo(mid, b, end)
    ensures RunsTo(h, a + b, end)
    decreases |a|
  {
    hide Enabled, Next;
    if a == [] {
      assert a + b == b;
    } else {
      RunsConcat(Next(h, a[0]), a[1..], mid, b, end);
      assert (a + b)[0] == a[0] && (a + b)[1..] == a[1..] + b;
    }
  }

  /** A hub that can become clean does so without further changes. */
  lemma {:induction false} BecomesClean(h: Hub, initial: Routes) returns (steps: seq<Step>, end: Hub)
    requires Inv(h, initial) && CanClean(h)
    ensures RunsTo(h, steps, end) && SameChanges(h, end) && LockFree(end) && !end.dirty
  {
    if !h.dirty {
      steps, end := [], h;
    } else {
      var c :| 0 <= c < |h.calls| && Cleans(h.calls[c], h.watchSeq);
      if HoldsLock(h.calls[c]) {
        steps, end := Release(h, c, initial);
      } else if LockFree(h) {
        steps, end := AcquireAndRelease(h, c, initial);
      } else {
        var d :| 0 <= d < |h.calls| && HoldsLock(h.calls[d]);
        var first, mid := Release(h, d, initial);
        assert mid.calls[c] == h.calls[c];
        assert h.dirty && h.calls[d].seqNo != h.watchSeq by {
          assert if c < d then Apart(h.calls[c], h.calls[d]) else Apart(h.calls[d], h.calls[c]);
        }
        var second;
        second, end := AcquireAndRelease(mid, c, initial);
        steps := first + second;
        RunsConcat(h, first, mid, second, end);
      }
    }
  }

  lemma {:induction false} AcquireAndRelease(h: Hub, c: nat, initial: Routes) returns (steps: seq<Step>, end: Hub)
    requires && Inv(h, initial) && c < |h.calls| && h.calls[c].Snapshotted? && h.calls[c].seqNo == h.watchSeq
             && LockFree(h)
    ensures RunsTo(h, steps, end) && SameChanges(h, end) && LockFree(end) && !end.dirty && (!h.edited ==> !end.edited)
  {
    assert CallOk(h, h.calls[c]);
    var next := Next(h, Acquire(c));
    AcquireKeeps(h, c, initial);
    var rest;
    rest, end := Release(next, c, initial);
    steps := [Acquire(c)] + rest;
    RunStep(h, Acquire(c), rest, end);
  }

  /** Reading the config decides: the refresh can undo a change from then on exactly when its
      version is current, the file does not hold the newest set and the hub can become clean. */
  lemma {:induction false} ConfigReadDecides(h: Hub, i: nat, initial: Routes)
    requires Inv(h, initial) && Enabled(h, ReadConfig(i))
    ensures CanUndo(Next(h, ReadConfig(i)), i, initial) <==>
            h.seeds[i].version == h.watchSeq && h.stored != Newest(h, initial) && CanClean(h)
  {
    hide CanUndo;
    var n := Next(h, ReadConfig(i));
    SeedKeeps(h, ReadConfig(i), initial);
    RefreshUndoesIff(n, i, initial);
    assert n.calls == h.calls;
  }

  /** A refresh whose version was read while nothing was left to persist never undoes a change, as
      long as nobody else edits the file; an edit is what such a refresh is there to apply. */
  predicate ReadClean(h: Hub, s: Seed, initial: Routes) {
    match s
    case VersionRead(v) => v == h.watchSeq ==> !h.dirty
    case ConfigRead(v, routes) => v == h.watchSeq ==> !h.dirty && routes == Newest(h, initial)
    case Seeded => true
  }

  lemma {:induction false} CleanRefreshStep(h: Hub, s: Step, i: nat, initial: Routes)
    requires Inv(h, initial) && Enabled(h, s) && !h.edited && !s.Edit? && i < |Next(h, s).seeds|
    requires if i < |h.seeds| then ReadClean(h, h.seeds[i], initial) else s.ReadVersion? && !h.dirty
    ensures ReadClean(Next(h, s), Next(h, s).seeds[i], initial)
  {
    UnlockedStored(h, initial);
    if i < |h.seeds| {
      assert SeedOk(h, h.seeds[i]);
    }
  }

  lemma {:induction false} CleanRefreshesNeverUndo(states: seq<Hub>, steps: seq<Step>, initial: Routes, n: nat)
    requires Run(states, steps, initial) && n < |states|
    requires forall k :: 0 <= k < n ==> !steps[k].Edit? && (steps[k].ReadVersion? ==> !states[k].dirty)
    ensures !states[n].edited
    ensures forall i :: 0 <= i < |states[n].seeds| ==> ReadClean(states[n], states[n].seeds[i], initial)
    ensures states[n].watchers == Newest(states[n], initial)
  {
    if n > 0 {
      CleanRefreshesNeverUndo(states, steps, initial, n - 1);
      RunInv(states, steps, initial, n - 1);
      var h, s := states[n - 1], steps[n - 1];
      forall i | 0 <= i < |states[n].seeds| ensures ReadClean(states[n], states[n].seeds[i], initial) {
        CleanRefreshStep(h, s, i, initial);
      }
      if s.Apply? {
        assert ReadClean(h, h.seeds[s.seed], initial);
      }
    }
  }

  predicate RunsTo(h: Hub, steps: seq<Step>, end: Hub)
    decreases |steps|
  {
    if steps == [] then h == end else Enabled(h, steps[0]) && RunsTo(Next(h, steps[0]), steps[1..], end)
  }

  lemma {:induction false} RunStep(h: Hub, s: Step, rest: seq<Step>, end: Hub)
    requires Enabled(h, s) && RunsTo(Next(h, s), rest, end)
    ensures RunsTo(h, [s] + rest, end)
  {
    assert ([s] + rest)[1..] == rest;
  }

  /** One change, and a refresh that reads the config before the change is written, reach a
      state in which the refresh undoes the change although it is stored. */
  lemma {:induction false} RefreshCanUndoChange() returns (h: Hub, steps: seq<Step>, end: Hub)
    ensures h == Next(Next(Next(Start(map[]), Change("k", "r", true)), ReadVersion), ReadConfig(0))
    ensures RunsTo(h, steps, end) && Enabled(end, Apply(0))
    ensures "k" in end.stored && "k" in end.watchers && "k" !in Next(end, Apply(0)).watchers && !end.dirty
  {
    hide Inv, RunsTo;
    h := OneChangeOneRefresh();
    var c: nat := 0;
    steps, end := AcquireAndRelease(h, c, map[]);
    RunKeepsInv(h, steps, end, map[]);
    UnlockedStored(end, map[]);
  }

  lemma {:induction false} OneChangeOneRefresh() returns (h: Hub)
    ensures h == Next(Next(Next(Start(map[]), Change("k", "r", true)), ReadVersion), ReadConfig(0)) && Inv(h, map[])
    ensures h.calls == [Snapshotted(1, h.watchers)] && h.watchers == map["k" := "r"] && h.taken == [h.watchers]
    ensures h.seeds == [ConfigRead(1, map[])] && h.watchSeq == 1 && LockFree(h) && !h.edited
  {
    hide Inv;
    var start := Start(map[]);
    StartInv(map[]);
    var changed := Next(start, Change("k", "r", true));
    ChangeKeeps(start, "k", "r", true, map[]);
    assert changed.calls == [Snapshotted(1, changed.watchers)] && changed.taken == [changed.watchers];
    h := RefreshReads(changed);
  }

  lemma {:induction false} RefreshReads(changed: Hub) returns (h: Hub)
    requires Inv(changed, map[]) && changed.seeds == []
    ensures h == Next(Next(changed, ReadVersion), ReadConfig(0)) && Inv(h, map[])
    ensures h == changed.(seeds := [ConfigRead(changed.watchSeq, changed.stored)])
  {
    hide Inv;
    var versioned := Next(changed, ReadVersion);
    SeedKeeps(changed, ReadVersion, map[]);
    assert versioned.seeds == [VersionRead(changed.watchSeq)];
    h := Next(versioned, ReadConfig(0));
    SeedKeeps(versioned, ReadConfig(0), map[]);
  }

  lemma {:induction false} StartInv(initial: Routes)
    ensures Inv(Start(initial), initial)
  {
  }

  lemma {:induction false} RunKeepsInv(h: Hub, steps: seq<Step>, end: Hub, initial: Routes)
    requires Inv(h, initial) && RunsTo(h, steps, end)
    ensures Inv(end, initial)
    decreases |steps|
  {
    if steps != [] {
      StepKeepsInv(h, steps[0], initial);
      RunKeepsInv(Next(h, steps[0]), steps[1..], end, initial);
    }
  }
}

/** The takeover registry: which chat drives which desktop tab. */
module BotTakeover {
  import opened Prelude

  datatype Route = Route(key: string, direct: bool)

  datatype Session = Session(detached: bool, running: bool)

  /** The two maps of the hub. */
  datatype Registry = Registry(takeovers: map<string, Route>, tabs: map<string, string>)

  /** The maps are each other's inverse: every taken-over tab is driven by exactly one chat and
      every driving chat drives exactly one tab. */
  ghost predicate Inverse(g: Registry) {
    && (forall t :: t in g.takeovers ==> g.takeovers[t].key in g.tabs && g.tabs[g.takeovers[t].key] == t)
    && (forall k :: k in g.tabs ==> g.tabs[k] in g.takeovers && g.takeovers[g.tabs[k]].key == k)
  }

  lemma {:induction false} OneDriverPerTab(g: Registry, t: string, u: string)
    requires Inverse(g) && t in g.takeovers && u in g.takeovers && g.takeovers[t].key == g.takeovers[u].key
    ensures t == u
  {
  }

  datatype Reply = Granted | NotDirect | NoSession | Detached | Held

  /** The registry after a granted takeover: the chat's previous tab is freed. */
  function Bound(g: Registry, route: Route, tab: string): Registry {
    var moves := route.key in g.tabs && g.tabs[route.key] != tab;
    var rest := if moves then g.takeovers - {g.tabs[route.key]} else g.takeovers;
    Registry(rest[tab := route], g.tabs[route.key := tab])
  }

  function Released(g: Registry, key: string): Registry {
    if key in g.tabs then Registry(g.takeovers - {g.tabs[key]}, g.tabs - {key}) else g
  }

  class BotBridgeHub {
    var takeovers: map<string, Route>
    var tabs: map<string, string>

    ghost function View(): Registry
      reads this
    {
      Registry(takeovers, tabs)
    }

    constructor ()
      ensures Inverse(View()) && takeovers == map[]
    {
      takeovers, tabs := map[], map[];
    }

    /** Takeover; `sessions` is what the desktop reports. */
    method Takeover(route: Route, tab: string, sessions: map<string, Session>)
      returns (reply: Reply, released: Option<string>)
      requires Inverse(View())
      modifies this
      ensures Inverse(View())
      ensures reply.Granted? <==>
                && route.direct && tab in sessions && !sessions[tab].detached
                && (tab in old(takeovers) ==> old(takeovers)[tab].key == route.key)
      ensures reply.Granted? ==> View() == Bound(old(View()), route, tab)
      ensures reply.Granted? ==> tab in takeovers && takeovers[tab] == route && tabs[route.key] == tab
      ensures reply.Granted? ==>
                released ==
                  (if route.key in old(tabs) && old(tabs)[route.key] != tab then Some(old(tabs)[route.key]) else None)
      ensures reply.Granted? ==>
                forall t ::
                  t != tab && released != Some(t) ==>
                    (t in takeovers <==> t in old(takeovers)) && (t in takeovers ==> takeovers[t] == old(takeovers)[t])
      ensures reply.Granted? && released.Some? ==> released.value !in takeovers
      ensures !reply.Granted? ==> View() == old(View()) && released == None
    {
      released := None;
      if !route.direct {
        return NotDirect, None;
      }
      if tab !in sessions {
        return NoSession, None;
      }
      if sessions[tab].detached {
        return Detached, None;
      }
      if tab in takeovers && takeovers[tab].key != route.key {
        return Held, None;
      }
      if route.key in tabs && tabs[route.key] != tab {
        released := Some(tabs[route.key]);
        takeovers := takeovers - {tabs[route.key]};
      }
      takeovers := takeovers[tab := route];
      tabs := tabs[route.key := tab];
      reply := Granted;
    }

    /** Release. */
    method Release(key: string) returns (freed: Option<string>)
      requires Inverse(View())
      modifies this
      ensures Inverse(View())
      ensures freed == if key in old(tabs) then Some(old(tabs)[key]) else None
      ensures View() == Released(old(View()), key)
    {
      freed := None;
      if key in tabs {
        freed := Some(tabs[key]);
        takeovers := takeovers - {tabs[key]};
        tabs := tabs - {key};
      }
    }

    /** reclaimFromDesktop. */
    method ReclaimFromDesktop(tab: string) returns (driver: Option<Route>)
      requires Inverse(View())
      modifies this
      ensures Inverse(View())
      ensures driver == if tab in old(takeovers) then Some(old(takeovers)[tab]) else None
      ensures tab !in takeovers && (driver.Some? ==> driver.value.key !in tabs)
      ensures forall t ::
                t != tab ==>
                  (t in takeovers <==> t in old(takeovers)) && (t in takeovers ==> takeovers[t] == old(takeovers)[t])
    {
      driver := None;
      if tab in takeovers {
        driver := Some(takeovers[tab]);
        tabs := tabs - {takeovers[tab].key};
        takeovers := takeovers - {tab};
      }
    }

    /** The binding DriveInput reads, under the lock. */
    method DriverTab(key: string) returns (tab: string)
      ensures tab == if key in tabs then tabs[key] else ""
    {
      tab := if key in tabs then tabs[key] else "";
    }

    /** The unbinding DriveInput does, under the lock taken again, when the session is gone. */
    method Unbind(key: string, tab: string)
      modifies this
      ensures View() == Unbound(old(View()), key, tab)
    {
      tabs := tabs - {key};
      takeovers := takeovers - {tab};
    }

    /** DriveInput as one call: input is driven only while the session is open and idle; a
        closed or detached session loses its binding. */
    method DriveInput(key: string, sessions: map<string, Session>) returns (driven: Option<string>)
      requires Inverse(View())
      modifies this
      ensures Inverse(View())
      ensures var tab := if key in old(tabs) then old(tabs)[key] else "";
              var gone := tab != "" && (tab !in sessions || sessions[tab].detached);
              && driven == (if tab != "" && !gone && !sessions[tab].running then Some(tab) else None)
              && View() == (if gone then Unbound(old(View()), key, tab) else old(View()))
    {
      var tab := DriverTab(key);
      if tab == "" {
        return None;
      }
      if tab !in sessions || sessions[tab].detached {
        UnbindIff(View(), key, tab);
        Unbind(key, tab);
        return None;
      }
      if sessions[tab].running {
        return None;
      }
      return Some(tab);
    }
  }

  function Unbound(g: Registry, key: string, tab: string): Registry {
    Registry(g.takeovers - {tab}, g.tabs - {key})
  }

  /** The unbinding of DriveInput keeps the maps inverse exactly when, by the time the lock is
      taken again, the binding it read is still there or both its ends are free. */
  lemma {:induction false} UnbindIff(g: Registry, key: string, tab: string)
    requires Inverse(g)
    ensures Inverse(Unbound(g, key, tab)) <==>
              (key in g.tabs && g.tabs[key] == tab) || (key !in g.tabs && tab !in g.takeovers)
  {
    var u := Unbound(g, key, tab);
    if key in g.tabs && g.tabs[key] != tab {
      var mine := g.tabs[key];
      assert mine in u.takeovers && u.takeovers[mine].key == key;
    } else if key !in g.tabs && tab in g.takeovers {
      var theirs := g.takeovers[tab].key;
      assert theirs in u.tabs && u.tabs[theirs] == tab;
    }
  }

  /** From any registry in which `mine` drives `tab`: it reads its binding, releases it, another
      chat takes the tab over, and the late unbinding then leaves that chat driving a tab nobody
      records as driven. */
  lemma {:induction false} LateUnbindBreaksRegistry(g: Registry, mine: Route, theirs: Route, tab: string)
    requires Inverse(g) && mine.key in g.tabs && g.tabs[mine.key] == tab && mine.key != theirs.key
    ensures var freed := Released(g, mine.key); var taken := Bound(freed, theirs, tab);
            && Inverse(freed) && tab !in freed.takeovers && Inverse(taken)
            && var late := Unbound(taken, mine.key, tab);
               !Inverse(late) && theirs.key in late.tabs && late.tabs[theirs.key] == tab && tab !in late.takeovers
  {
    var freed := Released(g, mine.key);
    var taken := Bound(freed, theirs, tab);
    assert Inverse(freed) && tab !in freed.takeovers;
    assert Inverse(taken);
    UnbindIff(taken, mine.key, tab);
  }
}
