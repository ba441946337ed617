/** What the watch subscriptions of the bot bridge are, in terms of the SetWatch calls alone. */
module BotRequests {
  import opened Prelude
  import opened BotWatch

  predicate Asks(s: Step, key: string) {
    s.Change? && s.key == key
  }

  ghost predicate Untouched(steps: seq<Step>, from: nat, to: nat, key: string)
    requires to <= |steps|
  {
    forall k :: from <= k < to ==> !Asks(steps[k], key)
  }

  /** Step `j` is the last change of `key` in [from, to). */
  ghost predicate LastAsked(steps: seq<Step>, from: nat, to: nat, key: string, j: nat)
    requires to <= |steps|
  {
    from <= j < to && Asks(steps[j], key) && Untouched(steps, j + 1, to, key)
  }

  /** The steps [from, to) ask for `key` to be watched on `route`: the last change of the key enabled
      it with that route, or there was none and `base` already held it. */
  ghost predicate AskedFor(steps: seq<Step>, from: nat, to: nat, base: Routes, key: string, route: string)
    requires to <= |steps|
  {
    || (exists j: nat :: LastAsked(steps, from, to, key, j) && steps[j].enable && steps[j].route == route)
    || (Untouched(steps, from, to, key) && Watches(base, key, route))
  }

  predicate Watches(routes: Routes, key: string, route: string) {
    key in routes && routes[key] == route
  }

  /** A refresh that takes effect: no change since it read the version, and none unpersisted. */
  predicate Replaces(h: Hub, s: Step) {
    && s.Apply? && s.seed < |h.seeds| && h.seeds[s.seed].ConfigRead?
    && h.seeds[s.seed].version == h.watchSeq && !h.dirty
  }

  /** `base` is what the watched set was last replaced by before step `to`, and `from` the step
      behind that refresh; the set the hub started with and 0 when no refresh took effect. */
  ghost predicate Replaced(states: seq<Hub>, steps: seq<Step>, initial: Routes, to: nat, from: nat, base: Routes)
    requires |states| == |steps| + 1 && to <= |steps|
  {
    && from <= to && (forall k :: from <= k < to ==> !Replaces(states[k], steps[k]))
    && if from == 0 then base == initial
       else Replaces(states[from - 1], steps[from - 1]) && base == states[from - 1].seeds[steps[from - 1].seed].routes
  }

  lemma {:induction false} SomeBase(states: seq<Hub>, steps: seq<Step>, initial: Routes, to: nat)
    returns (from: nat, base: Routes)
    requires |states| == |steps| + 1 && to <= |steps|
    ensures Replaced(states, steps, initial, to, from, base)
  {
    if to == 0 {
      from, base := 0, initial;
    } else if Replaces(states[to - 1], steps[to - 1]) {
      from, base := to, states[to - 1].seeds[steps[to - 1].seed].routes;
    } else {
      from, base := SomeBase(states, steps, initial, to - 1);
    }
  }

  lemma {:induction false} AskedStep(steps: seq<Step>, from: nat, to: nat, base: Routes, key: string, route: string)
    requires from <= to < |steps|
    ensures AskedFor(steps, from, to + 1, base, key, route) <==>
            if Asks(steps[to], key) then steps[to].enable && steps[to].route == route
            else AskedFor(steps, from, to, base, key, route)
  {
    if Asks(steps[to], key) {
      assert LastAsked(steps, from, to + 1, key, to);
    } else {
      forall j: nat ensures LastAsked(steps, from, to + 1, key, j) <==> LastAsked(steps, from, to, key, j) {
        if LastAsked(steps, from, to, key, j) {
          assert Untouched(steps, j + 1, to + 1, key);
        }
        if LastAsked(steps, from, to + 1, key, j) {
          assert Untouched(steps, j + 1, to, key);
        }
      }
      assert Untouched(steps, from, to + 1, key) <==> Untouched(steps, from, to, key);
    }
  }

  lemma {:induction false} NothingAsked(steps: seq<Step>, from: nat, base: Routes, key: string, route: string)
    requires from <= |steps|
    ensures AskedFor(steps, from, from, base, key, route) <==> Watches(base, key, route)
  {
  }

  lemma {:induction false} WatchersStep(h: Hub, s: Step)
    requires Enabled(h, s)
    ensures s.Change? && s.enable ==> Next(h, s).watchers == h.watchers[s.key := s.route]
    ensures s.Change? && !s.enable ==> Next(h, s).watchers == h.watchers - {s.key}
    ensures Replaces(h, s) ==> Next(h, s).watchers == h.seeds[s.seed].routes
    ensures !s.Change? && !Replaces(h, s) ==> Next(h, s).watchers == h.watchers
  {
  }

  /** In every state of every run the watched set holds exactly the routes that were asked for since
      a refresh last took effect. */
  lemma {:induction false} WatchedIsAskedFor(states: seq<Hub>, steps: seq<Step>, initial: Routes, i: nat, from: nat,
                                             base: Routes, key: string, route: string)
    requires Run(states, steps, initial) && i < |states| && Replaced(states, steps, initial, i, from, base)
    ensures Watches(states[i].watchers, key, route) <==> AskedFor(steps, from, i, base, key, route)
    decreases i
  {
    hide AskedFor, Next, Enabled, Replaces;
    if i > 0 {
      WatchersStep(states[i - 1], steps[i - 1]);
    }
    if i == from {
      NothingAsked(steps, from, base, key, route);
    } else {
      WatchedIsAskedFor(states, steps, initial, i - 1, from, base, key, route);
      AskedStep(steps, from, i - 1, base, key, route);
    }
  }

  lemma {:induction false} NewestStep(h: Hub, s: Step, initial: Routes)
    requires Enabled(h, s)
    ensures s.Change? ==> Newest(Next(h, s), initial) == Next(h, s).watchers
    ensures !s.Change? ==> Newest(Next(h, s), initial) == Newest(h, initial)
  {
  }

  lemma {:induction false} StartsWith(initial: Routes)
    ensures Newest(BotWatch.Start(initial), initial) == initial
  {
  }

  /** The newest set is the watched set its change left. */
  lemma {:induction false} NewestIsLastChange(states: seq<Hub>, steps: seq<Step>, initial: Routes, i: nat)
    returns (c: nat)
    requires Run(states, steps, initial) && i < |states|
    ensures c <= i && (forall k :: c <= k < i ==> !steps[k].Change?) && (c > 0 ==> steps[c - 1].Change?)
    ensures Newest(states[i], initial) == if c == 0 then initial else states[c].watchers
  {
    hide Next, Enabled, Newest;
    if i > 0 {
      NewestStep(states[i - 1], steps[i - 1], initial);
    }
    if i == 0 {
      StartsWith(initial);
      c := 0;
    } else if steps[i - 1].Change? {
      c := i;
    } else {
      c := NewestIsLastChange(states, steps, initial, i - 1);
    }
  }

  /** In every state of every run the newest set, the one that is persisted, holds exactly the routes
      that were asked for up to the last change, since a refresh last took effect before it. */
  lemma {:induction false} NewestIsAskedFor(states: seq<Hub>, steps: seq<Step>, initial: Routes, i: nat)
    returns (from: nat, base: Routes, to: nat)
    requires Run(states, steps, initial) && i < |states|
    ensures to <= i && Replaced(states, steps, initial, to, from, base)
    ensures (forall k :: to <= k < i ==> !steps[k].Change?) && (to > 0 ==> steps[to - 1].Change?)
    ensures forall key, route ::
              Watches(Newest(states[i], initial), key, route) <==> AskedFor(steps, from, to, base, key, route)
  {
    hide AskedFor, Replaced, Newest, Next, Enabled;
    to := NewestIsLastChange(states, steps, initial, i);
    from, base := SomeBase(states, steps, initial, to);
    forall key, route
      ensures Watches(Newest(states[i], initial), key, route) <==> AskedFor(steps, from, to, base, key, route)
    {
      WatchedIsAskedFor(states, steps, initial, to, from, base, key, route);
    }
  }

  /** `key` is in `routes` exactly as the changes alone, from the start of the run, ask for it. */
  ghost predicate AsChanged(routes: Routes, steps: seq<Step>, to: nat, initial: Routes, key: string)
    requires to <= |steps|
  {
    forall route :: Watches(routes, key, route) <==> AskedFor(steps, 0, to, initial, key, route)
  }

  /** The newest set holds a key as the changes alone ask for it exactly when the key was changed
      since a refresh last took effect, or that refresh brought the key as it had been asked for. */
  lemma {:induction false} NewestIsAsChangedIff(states: seq<Hub>, steps: seq<Step>, initial: Routes, i: nat,
                                                key: string)
    returns (from: nat, base: Routes, to: nat)
    requires Run(states, steps, initial) && i < |states|
    ensures from <= to <= i && Replaced(states, steps, initial, to, from, base)
    ensures (forall k :: to <= k < i ==> !steps[k].Change?) && (to > 0 ==> steps[to - 1].Change?)
    ensures AsChanged(Newest(states[i], initial), steps, i, initial, key) <==>
            (!Untouched(steps, from, to, key) || AsChanged(base, steps, from, initial, key))
  {
    hide AskedFor, Newest, Next, Enabled;
    from, base, to := NewestIsAskedFor(states, steps, initial, i);
    forall route
      ensures AskedFor(steps, 0, i, initial, key, route) <==> AskedFor(steps, 0, to, initial, key, route)
      ensures AskedFor(steps, 0, to, initial, key, route) <==>
              if Untouched(steps, from, to, key) then AskedFor(steps, 0, from, initial, key, route)
              else AskedFor(steps, from, to, base, key, route)
      ensures Untouched(steps, from, to, key) ==>
                (AskedFor(steps, from, to, base, key, route) <==> Watches(base, key, route))
    {
      AskedLater(steps, from, to, i, initial, base, key, route);
    }
  }

  lemma {:induction false} AskedLater(steps: seq<Step>, from: nat, to: nat, end: nat, initial: Routes, base: Routes,
                                      key: string, route: string)
    requires from <= to <= end <= |steps| && forall k :: to <= k < end ==> !steps[k].Change?
    ensures AskedFor(steps, 0, end, initial, key, route) <==> AskedFor(steps, 0, to, initial, key, route)
    ensures AskedFor(steps, 0, to, initial, key, route) <==>
            if Untouched(steps, from, to, key) then AskedFor(steps, 0, from, initial, key, route)
            else AskedFor(steps, from, to, base, key, route)
    ensures Untouched(steps, from, to, key) ==>
              (AskedFor(steps, from, to, base, key, route) <==> Watches(base, key, route))
    decreases end
  {
    hide AskedFor;
    if to < end {
      AskedLater(steps, from, to, end - 1, initial, base, key, route);
      AskedStep(steps, 0, end - 1, initial, key, route);
    } else if from < to {
      AskedLater(steps, from, to - 1, to - 1, initial, base, key, route);
      AskedStep(steps, 0, to - 1, initial, key, route);
      AskedStep(steps, from, to - 1, base, key, route);
      assert Untouched(steps, from, to, key) <==>
          Untouched(steps, from, to - 1, key) && !Asks(steps[to - 1], key);
    } else {
      NothingAsked(steps, from, base, key, route);
    }
  }

  /** Without a refresh that takes effect the changes alone decide: a key is in the newest set exactly
      when its last change enabled it, on the route of that change, or nobody changed it and it was
      there at the start.  A quiet hub has stored exactly that. */
  lemma {:induction false} ChangesAloneDecide(states: seq<Hub>, steps: seq<Step>, initial: Routes, i: nat, key: string,
                                              route: string)
    requires Run(states, steps, initial) && i < |states|
    requires forall k :: 0 <= k < i ==> !Replaces(states[k], steps[k])
    ensures Watches(Newest(states[i], initial), key, route) <==> AskedFor(steps, 0, i, initial, key, route)
    ensures Watches(states[i].watchers, key, route) <==> AskedFor(steps, 0, i, initial, key, route)
    ensures && states[i].failures == 0 && !states[i].edited
            && (forall k :: 0 <= k < |states[i].calls| ==> states[i].calls[k].Returned?) ==>
              (Watches(states[i].stored, key, route) <==> AskedFor(steps, 0, i, initial, key, route))
  {
    hide AskedFor, Newest, Next, Enabled;
    var from, base, to := NewestIsAskedFor(states, steps, initial, i);
    AskedLater(steps, from, to, i, initial, base, key, route);
    WatchedIsAskedFor(states, steps, initial, i, 0, initial, key, route);
    if states[i].failures == 0 && !states[i].edited && forall k :: 0 <= k < |states[i].calls| ==>
      states[i].calls[k].Returned? {
      QuietHubIsPersisted(states, steps, initial, i);
    }
  }

  /** Among the first `n` steps no write failed and nobody else changed the file. */
  predicate Undisturbed(steps: seq<Step>, n: nat)
    requires n <= |steps|
  {
    forall k :: 0 <= k < n ==> !(steps[k].Persist? && !steps[k].ok) && !steps[k].Edit?
  }

  lemma {:induction false} UndisturbedHub(states: seq<Hub>, steps: seq<Step>, initial: Routes, i: nat)
    requires Run(states, steps, initial) && i < |states| && Undisturbed(steps, i)
    ensures states[i].failures == 0 && !states[i].edited
  {
    if i > 0 {
      UndisturbedHub(states, steps, initial, i - 1);
    }
  }

  /** A run in which no write fails, nobody else changes the file and no refresh takes effect: once all
      calls have returned the file holds exactly what the changes ask for. */
  lemma {:induction false} QuietRunStoresWhatWasAsked(states: seq<Hub>, steps: seq<Step>, initial: Routes, i: nat,
                                                      key: string, route: string)
    requires Run(states, steps, initial) && i < |states| && Undisturbed(steps, i)
    requires forall k :: 0 <= k < i ==> !Replaces(states[k], steps[k])
    requires forall k :: 0 <= k < |states[i].calls| ==> states[i].calls[k].Returned?
    ensures Watches(states[i].stored, key, route) <==> AskedFor(steps, 0, i, initial, key, route)
  {
    hide AskedFor, Newest, Next, Enabled, Undisturbed, Run;
    UndisturbedHub(states, steps, initial, i);
    ChangesAloneDecide(states, steps, initial, i, key, route);
  }

  /** A run whose newest set is not what the changes alone ask for: another process clears the file,
      a refresh takes that over, and the next change builds on it. */
  lemma {:induction false} RefreshOverrules() returns (states: seq<Hub>, steps: seq<Step>)
    ensures Run(states, steps, map["k" := "r"]) && |states| == 6
    ensures forall k :: 0 <= k < |steps| ==> !Asks(steps[k], "k")
    ensures "k" !in Newest(states[5], map["k" := "r"])
  {
    steps := [Edit(map[]), ReadVersion, ReadConfig(0), Apply(0), Change("j", "s", true)];
    var a := Start(map["k" := "r"]);
    var b := Next(a, steps[0]);
    var c := Next(b, steps[1]);
    var d := Next(c, steps[2]);
    var e := Next(d, steps[3]);
    states := [a, b, c, d, e, Next(e, steps[4])];
  }
}
