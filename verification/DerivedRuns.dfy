/** What the derived cache holds over a run, in terms of its calls: which keys a prune drops, and that
    neither overflow nor failures outlast the caller that caused them. */
module DerivedRuns {
  import opened Prelude
  import opened DerivedCache

  // ---------------------------------------------------------------------------------
  // One prune
  // ---------------------------------------------------------------------------------

  /** Key `a` comes before key `b` in the order. */
  ghost predicate Before(order: seq<string>, a: string, b: string) {
    exists i, j :: 0 <= i < j < |order| && order[i] == a && order[j] == b
  }

  function Less(order: seq<string>, i: nat): seq<string>
    requires i < |order|
  {
    order[..i] + order[i + 1..]
  }

  lemma {:induction false} LessAt(order: seq<string>, i: nat, k: nat)
    requires i < |order| && k < |order| - 1
    ensures Less(order, i)[k] == order[if k < i then k else k + 1]
  {
  }

  lemma {:induction false} BeforeInLess(order: seq<string>, i: nat, a: string, b: string)
    requires i < |order| && Before(Less(order, i), a, b)
    ensures Before(order, a, b)
  {
    hide Less;
    var p, q :| 0 <= p < q < |Less(order, i)| && Less(order, i)[p] == a && Less(order, i)[q] == b;
    LessLength(order, i);
    LessAt(order, i, p);
    LessAt(order, i, q);
    var x, y := if p < i then p else p + 1, if q < i then q else q + 1;
    assert order[x] == a && order[y] == b;
  }

  lemma {:induction false} LessLength(order: seq<string>, i: nat)
    requires i < |order|
    ensures |Less(order, i)| == |order| - 1
  {
  }

  lemma {:induction false} BeforeOfLess(order: seq<string>, i: nat, a: string, b: string)
    requires i < |order| && Before(order, a, b) && a != order[i] && b != order[i]
    ensures Before(Less(order, i), a, b)
  {
    hide Less;
    var p, q :| 0 <= p < q < |order| && order[p] == a && order[q] == b;
    var x, y := if p < i then p else p - 1, if q < i then q else q - 1;
    LessLength(order, i);
    LessAt(order, i, x);
    LessAt(order, i, y);
    assert Less(order, i)[x] == a && Less(order, i)[y] == b;
  }

  /** A prune drops ready keys only, oldest first, and no more than needed: nothing while there are at
      most four entries, and never below four.  The rest keeps its order. */
  lemma {:induction false} PruneDropsOldest(c: Cache)
    requires Valid(c)
    ensures |c.entries| <= 4 ==> Pruned(c) == c
    ensures |c.entries| > 4 ==> |Pruned(c).entries| >= 4
    ensures forall a, b :: a in c.entries && a !in Pruned(c).entries && b in Pruned(c).entries && !InFlight(c, b) ==>
              Before(c.order, a, b)
    ensures forall a, b :: Before(Pruned(c).order, a, b) ==> Before(c.order, a, b)
    decreases |c.order|
  {
    hide Pruned, Valid, Before, NoDuplicates;
    PruneStep(c);
    if |c.entries| > CAPACITY && Victim(c, 0) < |c.order| {
      var i := Victim(c, 0);
      var d := Dropped(c, i);
      ValidOrder(c);
      DroppedValid(c, i);
      DropsOne(c, i);
      PruneDropsOldest(d);
      PrunedValid(d);
      forall a, b | Before(Pruned(d).order, a, b) ensures Before(c.order, a, b) {
        BeforeInLess(c.order, i, a, b);
      }
      forall a, b | a in c.entries && a !in Pruned(d).entries && b in Pruned(d).entries && !InFlight(c, b)
        ensures Before(c.order, a, b)
      {
        if a == c.order[i] {
          VictimIsFirst(c, b);
        } else {
          BeforeInLess(c.order, i, a, b);
        }
      }
    }
  }

  lemma {:induction false} ValidOrder(c: Cache)
    requires Valid(c)
    ensures NoDuplicates(c.order) && forall key :: key in c.order <==> key in c.entries
  {
  }

  lemma {:induction false} DropsOne(c: Cache, i: nat)
    requires Valid(c) && i < |c.order|
    ensures Dropped(c, i).entries == c.entries - {c.order[i]} && |Dropped(c, i).entries| == |c.entries| - 1
    ensures forall key :: key != c.order[i] ==> InFlight(Dropped(c, i), key) == InFlight(c, key)
  {
    hide NoDuplicates;
    assert c.order[i] in c.entries;
    assert Dropped(c, i).entries.Keys == c.entries.Keys - {c.order[i]};
  }

  /** A ready key that is not the victim comes behind it. */
  lemma {:induction false} VictimIsFirst(c: Cache, b: string)
    requires Valid(c) && Victim(c, 0) < |c.order| && b in c.entries && b != c.order[Victim(c, 0)] && !InFlight(c, b)
    ensures Before(c.order, c.order[Victim(c, 0)], b)
  {
    hide NoDuplicates;
    var j :| 0 <= j < |c.order| && c.order[j] == b;
    assert j > Victim(c, 0);
  }

  // ---------------------------------------------------------------------------------
  // Least recently used
  // ---------------------------------------------------------------------------------

  /** Step `j` is the last call for `key` among the first `n` steps. */
  ghost predicate LastCall(steps: seq<Step>, n: nat, key: string, j: int)
    requires n <= |steps|
  {
    0 <= j < n && steps[j] == Call(key) && forall k :: j < k < n ==> steps[k] != Call(key)
  }

  ghost predicate Called(steps: seq<Step>, n: nat, key: string)
    requires n <= |steps|
  {
    exists i :: LastCall(steps, n, key, i)
  }

  /** `a` was last called for before `b` was. */
  ghost predicate UsedEarlier(steps: seq<Step>, n: nat, a: string, b: string)
    requires n <= |steps|
  {
    exists i, j :: LastCall(steps, n, a, i) && LastCall(steps, n, b, j) && i < j
  }

  /** The order of the cache is the order of use. */
  ghost predicate Ordered(steps: seq<Step>, n: nat, order: seq<string>)
    requires n <= |steps|
  {
    && (forall a, b :: Before(order, a, b) ==> UsedEarlier(steps, n, a, b))
    && (forall a :: a in order ==> Called(steps, n, a))
  }

  lemma {:induction false} LastCallStep(steps: seq<Step>, n: nat, key: string, j: int)
    requires n < |steps|
    ensures LastCall(steps, n + 1, key, j) <==> if steps[n] == Call(key) then j == n else LastCall(steps, n, key, j)
  {
  }

  /** A step that is no call for them leaves two keys in their order of use. */
  lemma {:induction false} UseStays(steps: seq<Step>, n: nat, a: string, b: string)
    requires n < |steps| && steps[n] != Call(a) && UsedEarlier(steps, n, a, b)
    ensures UsedEarlier(steps, n + 1, a, b)
  {
    var i, j :| LastCall(steps, n, a, i) && LastCall(steps, n, b, j) && i < j;
    LastCallStep(steps, n, a, i);
    if steps[n] == Call(b) {
      LastCallStep(steps, n, b, n);
    } else {
      LastCallStep(steps, n, b, j);
    }
  }

  lemma {:induction false} CalledStays(steps: seq<Step>, n: nat, a: string)
    requires n < |steps| && (steps[n] == Call(a) || Called(steps, n, a))
    ensures Called(steps, n + 1, a)
  {
    if steps[n] == Call(a) {
      LastCallStep(steps, n, a, n);
    } else {
      var i :| LastCall(steps, n, a, i);
      LastCallStep(steps, n, a, i);
    }
  }

  /** A call moves its key behind all others. */
  lemma {:induction false} CalledLast(steps: seq<Step>, n: nat, a: string, b: string)
    requires n < |steps| && steps[n] == Call(b) && a != b && Called(steps, n, a)
    ensures UsedEarlier(steps, n + 1, a, b)
  {
    var i :| LastCall(steps, n, a, i);
    LastCallStep(steps, n, a, i);
    LastCallStep(steps, n, b, n);
  }

  /** The order after a call, before it is pruned: everything else as it was, the key at the end. */
  ghost predicate MovedBack(was: seq<string>, order: seq<string>, key: string) {
    && (forall a, b :: Before(order, a, b) ==> a != key && a in was && (b == key || Before(was, a, b)))
    && (forall a :: a in order ==> a == key || a in was)
  }

  lemma {:induction false} CallOrders(steps: seq<Step>, n: nat, was: seq<string>, order: seq<string>, key: string)
    requires n < |steps| && steps[n] == Call(key) && Ordered(steps, n, was) && MovedBack(was, order, key)
    ensures Ordered(steps, n + 1, order)
  {
    hide Before, UsedEarlier, LastCall;
    forall a, b | Before(order, a, b) ensures UsedEarlier(steps, n + 1, a, b) {
      if b == key {
        CalledLast(steps, n, a, b);
      } else {
        UseStays(steps, n, a, b);
      }
    }
    forall a | a in order ensures Called(steps, n + 1, a) {
      CalledStays(steps, n, a);
    }
  }

  /** Any other step keeps the order or thins it out. */
  lemma {:induction false} OtherOrders(steps: seq<Step>, n: nat, was: seq<string>, order: seq<string>)
    requires n < |steps| && !steps[n].Call? && Ordered(steps, n, was)
    requires forall a, b :: Before(order, a, b) ==> Before(was, a, b)
    requires forall a :: a in order ==> a in was
    ensures Ordered(steps, n + 1, order)
  {
    hide Before, UsedEarlier, LastCall;
    forall a, b | Before(order, a, b) ensures UsedEarlier(steps, n + 1, a, b) {
      UseStays(steps, n, a, b);
    }
    forall a | a in order ensures Called(steps, n + 1, a) {
      CalledStays(steps, n, a);
    }
  }

  lemma {:induction false} WithoutBefore(order: seq<string>, key: string, a: string, b: string)
    requires NoDuplicates(order) && Before(Without(order, key), a, b)
    ensures Before(order, a, b)
  {
    hide Before, NoDuplicates, Without;
    if key in order {
      var i := Position(order, key);
      WithoutAt(order, key, i);
      assert Less(order, i) == Without(order, key);
      BeforeInLess(order, i, a, b);
    } else {
      WithoutAbsent(order, key);
    }
  }

  lemma {:induction false} Position(order: seq<string>, key: string) returns (i: nat)
    requires NoDuplicates(order) && key in order
    ensures i < |order| && order[i] == key && key !in order[..i]
  {
    i :| 0 <= i < |order| && order[i] == key;
  }

  lemma {:induction false} BehindAll(order: seq<string>, key: string, a: string, b: string)
    requires key !in order && Before(order + [key], a, b)
    ensures a != key && a in order && (b == key || Before(order, a, b))
  {
    var all := order + [key];
    var i, j :| 0 <= i < j < |all| && all[i] == a && all[j] == b;
    assert order[i] == a;
    if b != key {
      assert order[j] == b;
    }
  }

  lemma {:induction false} TouchMoves(c: Cache, key: string)
    requires Valid(c)
    ensures MovedBack(c.order, Touched(c, key).order, key)
  {
    hide Before, Without, NoDuplicates;
    var order := Touched(c, key).order;
    ValidOrder(c);
    WithoutFacts(c.order, key);
    forall a, b | Before(order, a, b) ensures a != key && a in c.order && (b == key || Before(c.order, a, b)) {
      BehindAll(Without(c.order, key), key, a, b);
      if b != key {
        WithoutBefore(c.order, key, a, b);
      }
    }
  }

  lemma {:induction false} OpenMoves(c: Cache, key: string)
    requires Valid(c) && key !in c.entries
    ensures MovedBack(c.order, Opened(c, key).order, key)
  {
    hide Before, Pruned, NoDuplicates;
    ValidOrder(c);
    var entered := Entered(c, key);
    EnteredValid(c, key);
    PruneDropsOldest(entered);
    PrunedValid(entered);
    ValidOrder(Pruned(entered));
    forall a, b | Before(Pruned(entered).order, a, b)
      ensures a != key && a in c.order && (b == key || Before(c.order, a, b))
    {
      BehindAll(c.order, key, a, b);
    }
  }

  lemma {:induction false} EnteredValid(c: Cache, key: string)
    requires Valid(c) && key !in c.entries
    ensures Valid(Entered(c, key))
  {
    assert key !in c.order;
  }

  /** What a settling caller forgets before it prunes. */
  function Forgotten(c: Cache, slot: nat): Cache
    requires slot < |c.slots|
  {
    var s := c.slots[slot];
    if s.outcome.Some? && s.outcome.value.Bad? && s.key in c.entries && c.entries[s.key] == slot then
      c.(entries := c.entries - {s.key}, order := Without(c.order, s.key))
    else c
  }

  lemma {:induction false} ForgottenValid(c: Cache, slot: nat)
    requires Valid(c) && slot < |c.slots| && c.slots[slot].outcome.Some?
    ensures Valid(Forgotten(c, slot)) && Settled(c, slot) == Pruned(Forgotten(c, slot))
    ensures forall a, b :: Before(Forgotten(c, slot).order, a, b) ==> Before(c.order, a, b)
    ensures forall key :: InFlight(Forgotten(c, slot), key) <==> InFlight(c, key)
  {
    hide Pruned, Before;
    var key := c.slots[slot].key;
    WithoutFacts(c.order, key);
    forall a, b | Before(Without(c.order, key), a, b) ensures Before(c.order, a, b) {
      WithoutBefore(c.order, key, a, b);
    }
  }

  lemma {:induction false} SettleThins(c: Cache, slot: nat)
    requires Valid(c) && slot < |c.slots| && c.slots[slot].outcome.Some?
    ensures forall a, b :: Before(Settled(c, slot).order, a, b) ==> Before(c.order, a, b)
    ensures forall a :: a in Settled(c, slot).order ==> a in c.order
  {
    hide Pruned, Before, NoDuplicates, Settled;
    ForgottenValid(c, slot);
    PruneDropsOldest(Forgotten(c, slot));
    PrunedValid(Forgotten(c, slot));
    ValidOrder(c);
    ValidOrder(Pruned(Forgotten(c, slot)));
  }

  /** In every state of every run the cache lists its keys in the order of their last calls. */
  lemma {:induction false} OrderIsByUse(states: seq<State>, steps: seq<Step>, n: nat,
                                        computed: (string, Outcome) -> bool)
    requires Run(states, steps, computed) && n < |states|
    ensures Ordered(steps, n, states[n].cache.order)
  {
    hide Opened, Touched, Settled, Ordered, MovedBack, Before, Valid;
    if n == 0 {
      EmptyOrdered(steps);
    } else {
      OrderIsByUse(states, steps, n - 1, computed);
      RunInv(states, steps, n - 1, computed);
      var st, s := states[n - 1], steps[n - 1];
      match s
      case Call(key) =>
        if key in st.cache.entries {
          TouchMoves(st.cache, key);
        } else {
          OpenMoves(st.cache, key);
        }
        CallOrders(steps, n - 1, st.cache.order, states[n].cache.order, key);
      case Settle(c) =>
        SettleThins(st.cache, st.callers[c].slot);
        OtherOrders(steps, n - 1, st.cache.order, states[n].cache.order);
      case _ => OtherOrders(steps, n - 1, st.cache.order, states[n].cache.order);
    }
  }

  lemma {:induction false} EmptyOrdered(steps: seq<Step>)
    ensures Ordered(steps, 0, [])
  {
  }

  /** The step forgets `key` because its computation failed. */
  ghost predicate Forgets(st: State, s: Step, key: string) {
    && s.Settle? && s.caller < |st.callers| && st.callers[s.caller].Settling? && HasSlot(st, s.caller)
    && st.cache.slots[st.callers[s.caller].slot].outcome.Some?
    && st.cache.slots[st.callers[s.caller].slot].outcome.value.Bad?
    && st.cache.slots[st.callers[s.caller].slot].key == key
  }

  predicate Ready(c: Cache, key: string) {
    key in c.entries && !InFlight(c, key)
  }

  /** Least recently used: a key that a step evicts (and does not forget as failed) was ready, had been
      called for before every ready key `b` that stays, and at least four entries stay. */
  lemma {:induction false} EvictsLeastRecent(states: seq<State>, steps: seq<Step>, n: nat, a: string, b: string,
                                             computed: (string, Outcome) -> bool)
    requires Run(states, steps, computed) && n < |steps|
    requires a in states[n].cache.entries && a !in states[n + 1].cache.entries && !Forgets(states[n], steps[n], a)
    ensures Ready(states[n].cache, a) && |states[n + 1].cache.entries| >= 4
    ensures Ready(states[n + 1].cache, b) ==> UsedEarlier(steps, n + 1, a, b)
  {
    hide Opened, Touched, Settled, Ordered, Before, Valid, Pruned, UsedEarlier, Entered;
    OrderIsByUse(states, steps, n, computed);
    RunInv(states, steps, n, computed);
    var st, s := states[n], steps[n];
    match s {
      case Call(key) => OpenEvicts(st.cache, key, a);
      case Settle(c) => SettleEvicts(st.cache, st.callers[c].slot, a);
      case _ =>
    }
    if Ready(states[n + 1].cache, b) {
      OrderedBefore(steps, n, st.cache.order, a, b);
      UseStays(steps, n, a, b);
    }
  }

  lemma {:induction false} OrderedBefore(steps: seq<Step>, n: nat, order: seq<string>, a: string, b: string)
    requires n <= |steps| && Ordered(steps, n, order) && Before(order, a, b)
    ensures UsedEarlier(steps, n, a, b)
  {
  }

  lemma {:induction false} OpenEvicts(c: Cache, key: string, a: string)
    requires Valid(c) && a in c.entries && a !in (if key in c.entries then Touched(c, key) else Opened(c, key)).entries
    ensures key !in c.entries && a != key && !InFlight(c, a) && |Opened(c, key).entries| >= 4
    ensures forall b :: b in Opened(c, key).entries && !InFlight(Opened(c, key), b) ==> Before(c.order, a, b)
  {
    hide Before, Pruned, NoDuplicates;
    var entered := Entered(c, key);
    EnteredValid(c, key);
    ValidOrder(c);
    PruneDropsOldest(entered);
    PrunedValid(entered);
    assert InFlight(c, a) ==> InFlight(entered, a);
    forall b | b in Pruned(entered).entries && !InFlight(Pruned(entered), b) ensures Before(c.order, a, b) {
      assert InFlight(entered, key) && !InFlight(entered, b);
      BehindAll(c.order, key, a, b);
    }
  }

  lemma {:induction false} SettleEvicts(c: Cache, slot: nat, a: string)
    requires Valid(c) && slot < |c.slots| && c.slots[slot].outcome.Some?
    requires a in c.entries && a !in Settled(c, slot).entries
    requires c.slots[slot].outcome.value.Bad? ==> c.slots[slot].key != a
    ensures !InFlight(c, a) && |Settled(c, slot).entries| >= 4
    ensures forall b :: b in Settled(c, slot).entries && !InFlight(Settled(c, slot), b) ==> Before(c.order, a, b)
  {
    hide Before, Pruned, NoDuplicates, Settled;
    var f := Forgotten(c, slot);
    ForgottenValid(c, slot);
    PruneDropsOldest(f);
    PrunedValid(f);
    assert a in f.entries;
    forall b | b in Pruned(f).entries && !InFlight(Pruned(f), b) ensures Before(c.order, a, b) {
      assert !InFlight(f, b);
    }
  }

  // ---------------------------------------------------------------------------------
  // Overflow and failures
  // ---------------------------------------------------------------------------------

  /** A caller has computed the entry of `key` and not settled it yet. */
  ghost predicate Unsettled(st: State, key: string) {
    key in st.cache.entries &&
    exists c :: 0 <= c < |st.callers| && st.callers[c].Settling? && st.callers[c].slot == st.cache.entries[key]
  }

  predicate Failed(c: Cache, key: string) {
    key in c.entries && c.entries[key] < |c.slots| && c.slots[c.entries[key]].outcome.Some? &&
    c.slots[c.entries[key]].outcome.value.Bad?
  }

  /** More than four entries are held only while all of them are in flight or unsettled, and a failure
      only while it is unsettled. */
  ghost predicate Bounded(st: State) {
    && (|st.cache.entries| <= 4 || forall key :: Ready(st.cache, key) ==> Unsettled(st, key))
    && forall key :: Failed(st.cache, key) ==> Unsettled(st, key)
  }

  /** In every state of every run the cache is within its capacity, or whatever could be evicted waits
      for the caller that computed it; and a failure waits for its caller to be forgotten. */
  lemma {:induction false} EveryRunIsBounded(states: seq<State>, steps: seq<Step>, n: nat,
                                             computed: (string, Outcome) -> bool)
    requires Run(states, steps, computed) && n < |states|
    ensures Bounded(states[n])
  {
    hide Bounded, Inv, Next, Enabled;
    if n == 0 {
      EmptyBounded();
    } else {
      EveryRunIsBounded(states, steps, n - 1, computed);
      RunInv(states, steps, n - 1, computed);
      StepBounded(states[n - 1], steps[n - 1], computed);
    }
  }

  lemma {:induction false} EmptyBounded()
    ensures Bounded(EMPTY)
  {
  }

  lemma {:induction false} StepBounded(st: State, s: Step, computed: (string, Outcome) -> bool)
    requires Inv(st, computed) && Enabled(st, s, computed) && Bounded(st)
    ensures Bounded(Next(st, s, computed))
  {
    match s
    case Call(key) => CallBounded(st, key, computed);
    case Finish(c, outcome) => FinishBounded(st, c, outcome, computed);
    case Settle(c) => SettleBounded(st, c, computed);
    case Wake(c) => WakeBounded(st, c, computed);
  }

  /** A settling caller that is still there keeps its entry unsettled. */
  lemma {:induction false} UnsettledStays(st: State, next: State, key: string)
    requires Unsettled(st, key) && key in next.cache.entries && next.cache.entries[key] == st.cache.entries[key]
    requires |next.callers| >= |st.callers|
    requires forall c ::
               0 <= c < |st.callers| && st.callers[c].Settling? && st.callers[c].slot == st.cache.entries[key] ==>
               next.callers[c] == st.callers[c]
    ensures Unsettled(next, key)
  {
    var c :| 0 <= c < |st.callers| && st.callers[c].Settling? && st.callers[c].slot == st.cache.entries[key];
    assert next.callers[c] == st.callers[c];
  }

  lemma {:induction false} CallBounded(st: State, key: string, computed: (string, Outcome) -> bool)
    requires Inv(st, computed) && Bounded(st)
    ensures Bounded(Next(st, Call(key), computed))
  {
    hide Pruned, Valid, Without, Unsettled;
    var next := Next(st, Call(key), computed);
    if key !in st.cache.entries {
      EnteredValid(st.cache, key);
      PrunedValid(Entered(st.cache, key));
      EntriesHaveSlots(st.cache);
    }
    forall k | Failed(next.cache, k) || (key in st.cache.entries && Ready(next.cache, k) && Unsettled(st, k))
      ensures Unsettled(next, k)
    {
      assert Failed(next.cache, k) ==> Failed(st.cache, k);
      UnsettledStays(st, next, k);
    }
  }

  lemma {:induction false} EntriesHaveSlots(c: Cache)
    requires Valid(c)
    ensures forall key :: key in c.entries ==> c.entries[key] < |c.slots|
  {
  }

  lemma {:induction false} FinishBounded(st: State, c: nat, outcome: Outcome, computed: (string, Outcome) -> bool)
    requires Inv(st, computed) && Enabled(st, Finish(c, outcome), computed) && Bounded(st)
    ensures Bounded(Next(st, Finish(c, outcome), computed))
  {
    hide Valid, Unsettled;
    var next := Next(st, Finish(c, outcome), computed);
    var slot := st.callers[c].slot;
    forall k | k in st.cache.entries && (st.cache.entries[k] == slot || Unsettled(st, k)) ensures Unsettled(next, k) {
      if st.cache.entries[k] == slot {
        SettlingIsUnsettled(next, k, c);
      } else {
        UnsettledStays(st, next, k);
      }
    }
    forall k | k in st.cache.entries && st.cache.entries[k] != slot
      ensures Failed(next.cache, k) == Failed(st.cache, k) && Ready(next.cache, k) == Ready(st.cache, k)
    {
    }
  }

  lemma {:induction false} SettlingIsUnsettled(st: State, key: string, c: nat)
    requires c < |st.callers| && st.callers[c].Settling?
    requires key in st.cache.entries && st.cache.entries[key] == st.callers[c].slot
    ensures Unsettled(st, key)
  {
  }

  lemma {:induction false} SettleBounded(st: State, c: nat, computed: (string, Outcome) -> bool)
    requires Inv(st, computed) && Enabled(st, Settle(c), computed) && Bounded(st)
    ensures Bounded(Next(st, Settle(c), computed))
  {
    hide Valid, Unsettled, Pruned, Settled, Without;
    var slot := st.callers[c].slot;
    var next := Next(st, Settle(c), computed);
    assert Valid(st.cache) && slot < |st.cache.slots|;
    EntriesHaveSlots(st.cache);
    ForgottenValid(st.cache, slot);
    var f := Forgotten(st.cache, slot);
    PrunedValid(f);
    EntryKeys(st.cache);
    forall k | Failed(next.cache, k) ensures Unsettled(next, k) {
      assert Failed(st.cache, k) && st.cache.entries[k] != slot;
      UnsettledStays(st, next, k);
    }
  }

  lemma {:induction false} EntryKeys(c: Cache)
    requires Valid(c)
    ensures forall key :: key in c.entries ==> c.entries[key] < |c.slots| && c.slots[c.entries[key]].key == key
  {
  }

  lemma {:induction false} WakeBounded(st: State, c: nat, computed: (string, Outcome) -> bool)
    requires Inv(st, computed) && Enabled(st, Wake(c), computed) && Bounded(st)
    ensures Bounded(Next(st, Wake(c), computed))
  {
    hide Valid, Unsettled;
    var next := Next(st, Wake(c), computed);
    forall k | Unsettled(st, k) ensures Unsettled(next, k) {
      assert k in st.cache.entries by {
        UnsettledEntry(st, k);
      }
      UnsettledStays(st, next, k);
    }
  }

  lemma {:induction false} UnsettledEntry(st: State, key: string)
    requires Unsettled(st, key)
    ensures key in st.cache.entries
  {
  }
}
