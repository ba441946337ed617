/** historyDerivedCache: a single-flight LRU cache shared by concurrent page requests.  Every
    critical section is one atomic step; a computation runs between two of them. */
module DerivedCache {
  import opened Prelude

  /** historyDerivedCacheEntries. */
  const CAPACITY := 4

  datatype Outcome = Good(todoArgs: map<string, string>) | Bad(error: string)

  /** historyDerivedCacheEntry: `outcome` is None until the ready channel is closed. */
  datatype Slot = Slot(key: string, outcome: Option<Outcome>)

  /** Entries are identified by their position in `slots`, as pointers are in the source. */
  datatype Cache = Cache(entries: map<string, nat>, order: seq<string>, slots: seq<Slot>)

  predicate InFlight(c: Cache, key: string) {
    key in c.entries && c.entries[key] < |c.slots| && c.slots[c.entries[key]].outcome.None?
  }

  function Without(order: seq<string>, key: string): seq<string> {
    if order == [] then [] else if order[0] == key then order[1..] else [order[0]] + Without(order[1..], key)
  }

  /** touchLocked. */
  function Touched(c: Cache, key: string): Cache {
    c.(order := Without(c.order, key) + [key])
  }

  /** First key of the order that prune may drop: not in flight. */
  function Victim(c: Cache, from: nat): (i: nat)
    requires from <= |c.order|
    ensures from <= i <= |c.order|
    ensures i < |c.order| ==> !InFlight(c, c.order[i])
    ensures forall j :: from <= j < i ==> InFlight(c, c.order[j])
    decreases |c.order| - from
  {
    if from == |c.order| || !InFlight(c, c.order[from]) then from else Victim(c, from + 1)
  }

  function Dropped(c: Cache, i: nat): Cache
    requires i < |c.order|
  {
    c.(entries := c.entries - {c.order[i]}, order := c.order[..i] + c.order[i + 1..])
  }

  /** pruneLocked. */
  function Pruned(c: Cache): Cache
    decreases |c.order|
  {
    if |c.entries| > CAPACITY && Victim(c, 0) < |c.order| then Pruned(Dropped(c, Victim(c, 0))) else c
  }

  function Entered(c: Cache, key: string): Cache {
    c.(entries := c.entries[key := |c.slots|], order := c.order + [key], slots := c.slots + [Slot(key, None)])
  }

  /** A lookup that found no entry: a new in-flight entry, then a prune. */
  function Opened(c: Cache, key: string): Cache {
    Pruned(Entered(c, key))
  }

  function Completed(c: Cache, slot: nat, outcome: Outcome): Cache
    requires slot < |c.slots|
  {
    c.(slots := c.slots[slot := c.slots[slot].(outcome := Some(outcome))])
  }

  /** The last critical section of a computing caller: forget a failure that is still the
      entry of its key, then prune. */
  function Settled(c: Cache, slot: nat): Cache
    requires slot < |c.slots|
  {
    var key := c.slots[slot].key;
    if c.slots[slot].outcome.Some? && c.slots[slot].outcome.value.Bad? && key in c.entries &&
      c.entries[key] == slot then
      Pruned(c.(entries := c.entries - {key}, order := Without(c.order, key)))
    else Pruned(c)
  }

  lemma {:induction false} PruneStep(c: Cache)
    ensures && Pruned(c) == if |c.entries| > CAPACITY
            && Victim(c, 0) < |c.order| then Pruned(Dropped(c, Victim(c, 0))) else c
  {
  }

  lemma {:induction false} WithoutAt(order: seq<string>, key: string, i: nat)
    requires i < |order| && key !in order[..i] && order[i] == key
    ensures Without(order, key) == order[..i] + order[i + 1..]
  {
    if i > 0 {
      assert order[0] == order[..i][0];
      assert order[1..][..i - 1] == order[..i][1..];
      WithoutAt(order[1..], key, i - 1);
    }
  }

  lemma {:induction false} WithoutAbsent(order: seq<string>, key: string)
    requires key !in order
    ensures Without(order, key) == order
  {
    if order != [] {
      WithoutAbsent(order[1..], key);
    }
  }

  // ---------------------------------------------------------------------------------
  // The critical sections as the source runs them
  // ---------------------------------------------------------------------------------

  class LockedCache {
    var entries: map<string, nat>
    var order: seq<string>
    var slots: seq<Slot>

    ghost function View(): Cache
      reads this
    {
      Cache(entries, order, slots)
    }

    constructor ()
      ensures View() == Cache(map[], [], [])
    {
      entries, order, slots := map[], [], [];
    }

    method RemoveFromOrder(key: string)
      modifies this`order
      ensures order == Without(old(order), key)
    {
      hide Without;
      var i := 0;
      while i < |order|
        invariant 0 <= i <= |order| && order == old(order) && key !in order[..i]
      {
        if order[i] == key {
          WithoutAt(order, key, i);
          order := order[..i] + order[i + 1..];
          return;
        }
        i := i + 1;
      }
      WithoutAbsent(order, key);
    }

    method TouchLocked(key: string)
      modifies this`order
      ensures View() == Touched(old(View()), key)
    {
      RemoveFromOrder(key);
      order := order + [key];
    }

    /** First key of the order whose entry is gone or ready. */
    method FindVictim() returns (i: nat)
      ensures i == Victim(View(), 0)
    {
      i := 0;
      while i < |order| && order[i] in entries && entries[order[i]] < |slots| && slots[entries[order[i]]].outcome.None?
        invariant i <= |order| && Victim(View(), 0) == Victim(View(), i)
      {
        i := i + 1;
      }
    }

    method PruneLocked()
      modifies this`entries, this`order
      ensures View() == Pruned(old(View()))
    {
      hide Victim, Pruned;
      while |entries| > CAPACITY
        invariant Pruned(View()) == Pruned(old(View()))
        decreases |order|
      {
        var i := FindVictim();
        PruneStep(View());
        if i == |order| {
          return;
        }
        entries, order := entries - {order[i]}, order[..i] + order[i + 1..];
      }
      PruneStep(View());
    }

    /** The first critical section of todoArgs: join the entry of `key` or open a new one. */
    method Lookup(key: string) returns (slot: nat, hit: bool)
      modifies this
      ensures hit == (key in old(entries))
      ensures hit ==> slot == old(entries)[key] && View() == Touched(old(View()), key)
      ensures !hit ==> slot == |old(slots)| && View() == Opened(old(View()), key)
    {
      if key in entries {
        slot, hit := entries[key], true;
        TouchLocked(key);
      } else {
        slot, hit := |slots|, false;
        slots := slots + [Slot(key, None)];
        entries := entries[key := slot];
        order := order + [key];
        PruneLocked();
      }
    }

    /** Publish the computed outcome and close the ready channel. */
    method Complete(slot: nat, outcome: Outcome)
      requires slot < |slots|
      modifies this`slots
      ensures View() == Completed(old(View()), slot, outcome)
    {
      slots := slots[slot := slots[slot].(outcome := Some(outcome))];
    }

    method Settle(slot: nat)
      requires slot < |slots|
      modifies this`entries, this`order
      ensures View() == Settled(old(View()), slot)
    {
      var key := slots[slot].key;
      if slots[slot].outcome.Some? && slots[slot].outcome.value.Bad? && key in entries && entries[key] == slot {
        entries := entries - {key};
        RemoveFromOrder(key);
      }
      PruneLocked();
    }
  }

  // ---------------------------------------------------------------------------------
  // Invariant of the cache under any interleaving
  // ---------------------------------------------------------------------------------

  ghost predicate NoDuplicates(order: seq<string>) {
    forall i, j :: 0 <= i < j < |order| ==> order[i] != order[j]
  }

  /** `order` lists exactly the keys of `entries` once; each entry is stored under its own
      key; and every entry in flight is the current entry of its key. */
  ghost predicate Valid(c: Cache) {
    && NoDuplicates(c.order)
    && (forall key :: key in c.order <==> key in c.entries)
    && (forall key :: key in c.entries ==> c.entries[key] < |c.slots| && c.slots[c.entries[key]].key == key)
    && (forall i :: 0 <= i < |c.slots| && c.slots[i].outcome.None? ==>
          c.slots[i].key in c.entries && c.entries[c.slots[i].key] == i)
  }

  lemma {:induction false} WithoutFacts(order: seq<string>, key: string)
    requires NoDuplicates(order)
    ensures NoDuplicates(Without(order, key))
    ensures forall k :: k in Without(order, key) <==> k in order && k != key
  {
    if order != [] {
      WithoutFacts(order[1..], key);
      if order[0] != key {
        assert order == [order[0]] + order[1..];
        assert order[0] !in order[1..];
      } else {
        assert order == [key] + order[1..] && key !in order[1..];
      }
    }
  }

  lemma {:induction false} DroppedValid(c: Cache, i: nat)
    requires Valid(c) && i < |c.order| && !InFlight(c, c.order[i])
    ensures Valid(Dropped(c, i))
    ensures |Dropped(c, i).entries| < |c.entries|
  {
    hide NoDuplicates;
    OneLess(c.order, i);
    assert Dropped(c, i).entries.Keys == c.entries.Keys - {c.order[i]};
  }

  lemma {:induction false} OneLess(order: seq<string>, i: nat)
    requires NoDuplicates(order) && i < |order|
    ensures NoDuplicates(order[..i] + order[i + 1..])
    ensures forall k :: k in order[..i] + order[i + 1..] <==> k in order && k != order[i]
  {
    var less := order[..i] + order[i + 1..];
    forall k | k in order && k != order[i] ensures k in less {
      var j :| 0 <= j < |order| && order[j] == k;
      assert less[if j < i then j else j - 1] == k;
    }
  }

  /** Pruning keeps the cache valid and never evicts an entry in flight; afterwards the cache
      is within its capacity or holds nothing but entries in flight. */
  lemma {:induction false} PrunedValid(c: Cache)
    requires Valid(c)
    ensures Valid(Pruned(c)) && Pruned(c).slots == c.slots
    ensures forall key :: key in Pruned(c).entries ==> key in c.entries && Pruned(c).entries[key] == c.entries[key]
    ensures forall key :: InFlight(c, key) ==> key in Pruned(c).entries
    ensures |Pruned(c).entries| <= CAPACITY || forall key :: key in Pruned(c).entries ==> InFlight(Pruned(c), key)
    decreases |c.order|
  {
    hide Pruned, NoDuplicates;
    PruneStep(c);
    if |c.entries| > CAPACITY && Victim(c, 0) < |c.order| {
      var d := Dropped(c, Victim(c, 0));
      DroppedValid(c, Victim(c, 0));
      PrunedValid(d);
      forall key | InFlight(c, key) ensures key in Pruned(d).entries {
        assert InFlight(d, key);
      }
    }
  }

  /** A caller of todoArgs between its critical sections. */
  datatype Caller =
    | Computing(key: string, slot: nat)
    | Settling(key: string, slot: nat)
    | Waiting(key: string, slot: nat)
    | Done(key: string, outcome: Outcome)

  datatype State = State(cache: Cache, callers: seq<Caller>)

  datatype Step = Call(key: string) | Finish(caller: nat, outcome: Outcome) | Settle(caller: nat) | Wake(caller: nat)

  /** `computed(key, outcome)`: the computation for `key` can end in `outcome`. */
  ghost predicate Enabled(st: State, step: Step, computed: (string, Outcome) -> bool) {
    match step
    case Call(key) => true
    case Finish(c, outcome) =>
      c < |st.callers| && st.callers[c].Computing? && HasSlot(st, c) && computed(st.callers[c].key, outcome)
    case Settle(c) =>
      c < |st.callers| && st.callers[c].Settling? && HasSlot(st, c) && st.cache.slots[st.callers[c].slot].outcome.Some?
    case Wake(c) =>
      c < |st.callers| && st.callers[c].Waiting? && HasSlot(st, c) && st.cache.slots[st.callers[c].slot].outcome.Some?
  }

  /** The entry a caller holds exists; the invariant shows it always does. */
  predicate HasSlot(st: State, c: nat)
    requires c < |st.callers| && !st.callers[c].Done?
  {
    st.callers[c].slot < |st.cache.slots|
  }

  ghost function Next(st: State, step: Step, computed: (string, Outcome) -> bool): State
    requires Enabled(st, step, computed)
  {
    match step
    case Call(key) =>
      if key in st.cache.entries then State(Touched(st.cache, key), st.callers + [Waiting(key, st.cache.entries[key])])
      else State(Opened(st.cache, key), st.callers + [Computing(key, |st.cache.slots|)])
    case Finish(c, outcome) =>
      var caller := st.callers[c];
      State(Completed(st.cache, caller.slot, outcome), st.callers[c := Settling(caller.key, caller.slot)])
    case Settle(c) =>
      var caller := st.callers[c];
      State(Settled(st.cache, caller.slot),
        st.callers[c := Done(caller.key, st.cache.slots[caller.slot].outcome.value)])
    case Wake(c) =>
      var caller := st.callers[c];
      st.(callers := st.callers[c := Done(caller.key, st.cache.slots[caller.slot].outcome.value)])
  }

  ghost predicate CallerOk(slots: seq<Slot>, caller: Caller, computed: (string, Outcome) -> bool) {
    match caller
    case Done(key, outcome) => computed(key, outcome)
    case _ =>
      && caller.slot < |slots| && slots[caller.slot].key == caller.key
      && (caller.Computing? ==> slots[caller.slot].outcome.None?)
      && (caller.Settling? ==> slots[caller.slot].outcome.Some?)
  }

  ghost predicate Inv(st: State, computed: (string, Outcome) -> bool) {
    && Valid(st.cache)
    && (forall i :: 0 <= i < |st.cache.slots| && st.cache.slots[i].outcome.Some? ==>
          computed(st.cache.slots[i].key, st.cache.slots[i].outcome.value))
    && (forall c :: 0 <= c < |st.callers| ==> CallerOk(st.cache.slots, st.callers[c], computed))
    && (forall a, b :: 0 <= a < b < |st.callers| && st.callers[a].Computing? && st.callers[b].Computing? ==>
          st.callers[a].slot != st.callers[b].slot)
  }

  lemma {:induction false} TouchKeepsInv(st: State, key: string, computed: (string, Outcome) -> bool)
    requires Inv(st, computed) && key in st.cache.entries
    ensures Inv(Next(st, Call(key), computed), computed)
  {
    WithoutFacts(st.cache.order, key);
  }

  lemma {:induction false} OpenedValid(c: Cache, key: string)
    requires Valid(c) && key !in c.entries
    ensures Valid(Opened(c, key)) && Opened(c, key).slots == c.slots + [Slot(key, None)]
  {
    hide Pruned;
    assert Valid(Entered(c, key)) by {
      assert key !in c.order;
    }
    PrunedValid(Entered(c, key));
  }

  lemma {:induction false} OpenKeepsInv(st: State, key: string, computed: (string, Outcome) -> bool)
    requires Inv(st, computed) && key !in st.cache.entries
    ensures Inv(Next(st, Call(key), computed), computed)
  {
    hide Opened, Valid;
    OpenedValid(st.cache, key);
    var next := Next(st, Call(key), computed);
    forall d | 0 <= d < |next.callers| ensures CallerOk(next.cache.slots, next.callers[d], computed) {
      if d < |st.callers| {
        assert CallerOk(st.cache.slots, st.callers[d], computed);
      }
    }
  }

  lemma {:induction false} FinishKeepsInv(st: State, c: nat, outcome: Outcome, computed: (string, Outcome) -> bool)
    requires Inv(st, computed) && Enabled(st, Finish(c, outcome), computed)
    ensures Inv(Next(st, Finish(c, outcome), computed), computed)
  {
    var next := Next(st, Finish(c, outcome), computed);
    assert CallerOk(st.cache.slots, st.callers[c], computed);
    forall d | 0 <= d < |next.callers| ensures CallerOk(next.cache.slots, next.callers[d], computed) {
      assert CallerOk(st.cache.slots, st.callers[d], computed);
    }
  }

  lemma {:induction false} SettleKeepsInv(st: State, c: nat, computed: (string, Outcome) -> bool)
    requires Inv(st, computed) && Enabled(st, Settle(c), computed)
    ensures Inv(Next(st, Settle(c), computed), computed)
  {
    hide Settled, Valid;
    assert CallerOk(st.cache.slots, st.callers[c], computed);
    SettledValid(st.cache, st.callers[c].slot);
  }

  /** Settling keeps the cache valid and does not retain a failure: the key is free to be
      computed again unless another caller already started anew. */
  lemma {:induction false} SettledValid(c: Cache, slot: nat)
    requires Valid(c) && slot < |c.slots| && c.slots[slot].outcome.Some?
    ensures Valid(Settled(c, slot)) && Settled(c, slot).slots == c.slots
    ensures c.slots[slot].outcome.value.Bad? && c.slots[slot].key in Settled(c, slot).entries ==>
              Settled(c, slot).entries[c.slots[slot].key] != slot
  {
    hide Pruned;
    var key := c.slots[slot].key;
    if c.slots[slot].outcome.value.Bad? && key in c.entries && c.entries[key] == slot {
      WithoutFacts(c.order, key);
      PrunedValid(c.(entries := c.entries - {key}, order := Without(c.order, key)));
    } else {
      PrunedValid(c);
    }
  }

  /** Every step of every caller keeps the invariant. */
  lemma {:induction false} StepKeepsInv(st: State, step: Step, computed: (string, Outcome) -> bool)
    requires Inv(st, computed) && Enabled(st, step, computed)
    ensures Inv(Next(st, step, computed), computed)
  {
    match step
    case Call(key) =>
      if key in st.cache.entries {
        TouchKeepsInv(st, key, computed);
      } else {
        OpenKeepsInv(st, key, computed);
      }
    case Finish(c, outcome) => FinishKeepsInv(st, c, outcome, computed);
    case Settle(c) => SettleKeepsInv(st, c, computed);
    case Wake(c) =>
      assert CallerOk(st.cache.slots, st.callers[c], computed);
  }

  const EMPTY := State(Cache(map[], [], []), [])

  /** `states` is a run: it starts empty and each step leads to the next state. */
  ghost predicate Run(states: seq<State>, steps: seq<Step>, computed: (string, Outcome) -> bool) {
    && |states| == |steps| + 1 && states[0] == EMPTY
    && forall i :: 0 <= i < |steps| ==>
         Enabled(states[i], steps[i], computed) && states[i + 1] == Next(states[i], steps[i], computed)
  }

  lemma {:induction false} RunInv(states: seq<State>, steps: seq<Step>, i: nat, computed: (string, Outcome) -> bool)
    requires Run(states, steps, computed) && i < |states|
    ensures Inv(states[i], computed)
  {
    if i > 0 {
      RunInv(states, steps, i - 1, computed);
      StepKeepsInv(states[i - 1], steps[i - 1], computed);
    }
  }

  /** In every state of every interleaving: the cache is consistent, at most one computation
      per key is in flight, whoever has returned got an outcome computed for its own key, and
      no caller with work left is without its entry. */
  lemma {:induction false} EveryRunIsSafe(states: seq<State>, steps: seq<Step>, i: nat,
                                          computed: (string, Outcome) -> bool)
    requires Run(states, steps, computed) && i < |states|
    ensures var st := states[i];
            && Valid(st.cache)
            && (forall a, b :: 0 <= a < b < |st.callers| && st.callers[a].Computing? && st.callers[b].Computing? ==>
                  st.callers[a].key != st.callers[b].key)
            && (forall c :: 0 <= c < |st.callers| && st.callers[c].Done? ==>
                  computed(st.callers[c].key, st.callers[c].outcome))
            && (forall c :: 0 <= c < |st.callers| && st.callers[c].Settling? ==> Enabled(st, Settle(c), computed))
  {
    RunInv(states, steps, i, computed);
    var st := states[i];
    forall c | 0 <= c < |st.callers| ensures CallerOk(st.cache.slots, st.callers[c], computed) {
    }
  }
}
