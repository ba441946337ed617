/** What the engines of HeartbeatRuns remember, and when a panel save goes through. */
module HeartbeatMemory {
  import opened Prelude
  import opened HeartbeatConfig
  import opened HeartbeatRuns

  /** An engine that has not looked at the config yet. */
  predicate Fresh(e: Engine) {
    !e.observed && !e.deleted && e.file == Missing && e.op.Idle?
  }

  /** Engine `e` wrote the list itself, for a completion or a save of tasks. */
  ghost predicate Wrote(codec: Codec, st: State, e: nat, ts: seq<Task>) {
    exists k :: 0 <= k < |st.writes| && WroteBy(codec, st.writes[k], e, ts)
  }

  ghost predicate WroteBy(codec: Codec, w: Write, e: nat, ts: seq<Task>) {
    w.engine == e && !w.job.ConfigSave? && Read(codec, w.before).Ok? && Listed(w, Read(codec, w.before).value) == ts
  }

  /** The engine remembers the config it saw last: its revision, and its tasks or a list it wrote itself;
      it takes the config for deleted only while it last saw it missing. */
  ghost predicate Remembers(codec: Codec, st: State, e: nat)
    requires e < |st.engines|
  {
    var g := st.engines[e];
    && (g.deleted ==> g.observed && g.file.Missing?)
    && (!g.observed ==> g.file.Missing?)
    && (g.observed ==>
          && Read(codec, g.file).Ok? && g.revision == Read(codec, g.file).value.cfg.revision
          && (g.tasks == Read(codec, g.file).value.cfg.tasks || Wrote(codec, st, e, g.tasks)))
    && (g.op.ReadingBack? && !g.op.job.ConfigSave? ==> Wrote(codec, st, e, g.op.list))
  }

  /** In every state of every run of engines that start fresh. */
  lemma {:induction false} MemoryIsReadOrWritten(codec: Codec, states: seq<State>, steps: seq<Step>, i: nat, e: nat)
    requires Run(codec, states, steps) && i < |states| && e < |states[i].engines|
    requires forall k :: 0 <= k < |states[0].engines| ==> Fresh(states[0].engines[k])
    ensures Remembers(codec, states[i], e)
  {
    hide Next, Enabled, Inv, Remembers;
    if i == 0 {
      FreshRemembers(codec, states[0], e);
    } else {
      EnginesStay(codec, states[i - 1], steps[i - 1]);
      MemoryIsReadOrWritten(codec, states, steps, i - 1, e);
      RunInv(codec, states, steps, i - 1);
      StepRemembers(codec, states[i - 1], steps[i - 1], e);
    }
  }

  lemma {:induction false} FreshRemembers(codec: Codec, st: State, e: nat)
    requires e < |st.engines| && Fresh(st.engines[e])
    ensures Remembers(codec, st, e)
  {
  }

  lemma {:induction false} EnginesStay(codec: Codec, st: State, s: Step)
    requires Enabled(st, s)
    ensures |Next(codec, st, s).engines| == |st.engines|
  {
  }

  lemma {:induction false} StepRemembers(codec: Codec, st: State, s: Step, e: nat)
    requires Inv(codec, st) && Enabled(st, s) && e < |st.engines| && Remembers(codec, st, e)
    ensures Remembers(codec, Next(codec, st, s), e)
  {
    hide Wrote, WroteBy, AfterRead, AfterCompare, AfterReadBack, AfterAdopt, AfterLoad, EngineOk, Read;
    var next := Next(codec, st, s);
    WritesStay(codec, st, s);
    assert EngineOk(codec, st.engines[e]);
    forall ts | Wrote(codec, st, e, ts) ensures Wrote(codec, next, e, ts) {
      WroteStays(codec, st, next, e, ts);
    }
    OthersStay(codec, st, s, e);
    match s
    case CompareWrite(d, io) =>
      if d == e {
        CompareRemembers(codec, st, e, io);
      }
    case ReadConfig(d) =>
      if d == e {
        ReadRemembers(codec, st, e);
      }
    case ReadBack(d) =>
      if d == e {
        BackRemembers(codec, st, e);
      }
    case Adopt(d) =>
      if d == e {
        LookRemembers(codec, st, e);
      }
    case Load(d) =>
      if d == e {
        LookRemembers(codec, st, e);
      }
    case _ =>
  }

  /** The engine a step is of. */
  predicate StepOf(s: Step, e: nat) {
    !s.Edit? && s.engine == e
  }

  lemma {:induction false} OthersStay(codec: Codec, st: State, s: Step, e: nat)
    requires Enabled(st, s) && e < |st.engines|
    ensures |Next(codec, st, s).engines| == |st.engines|
    ensures !StepOf(s, e) ==> Next(codec, st, s).engines[e] == st.engines[e]
  {
  }

  lemma {:induction false} ReadRemembers(codec: Codec, st: State, e: nat)
    requires e < |st.engines| && st.engines[e].op.Reading? && Remembers(codec, st, e)
    ensures Remembers(codec, AfterRead(codec, st, e), e)
  {
    hide Wrote, MergeTasks;
    var n := AfterRead(codec, st, e);
    assert n.writes == st.writes;
    assert Wrote(codec, n, e, st.engines[e].tasks) == Wrote(codec, st, e, st.engines[e].tasks) by {
      SameWrites(codec, st, n, e, st.engines[e].tasks);
    }
  }

  lemma {:induction false} SameWrites(codec: Codec, st: State, n: State, e: nat, ts: seq<Task>)
    requires n.writes == st.writes
    ensures Wrote(codec, n, e, ts) == Wrote(codec, st, e, ts)
  {
  }

  lemma {:induction false} BackRemembers(codec: Codec, st: State, e: nat)
    requires e < |st.engines| && st.engines[e].op.ReadingBack? && Remembers(codec, st, e)
    ensures Remembers(codec, Next(codec, st, ReadBack(e)), e)
  {
    hide Wrote;
    var n := Next(codec, st, ReadBack(e));
    SameWrites(codec, st, n, e, n.engines[e].tasks);
  }

  lemma {:induction false} LookRemembers(codec: Codec, st: State, e: nat)
    requires e < |st.engines| && st.engines[e].op.Idle? && Remembers(codec, st, e)
    ensures Remembers(codec, Next(codec, st, Adopt(e)), e) && Remembers(codec, Next(codec, st, Load(e)), e)
  {
    hide Wrote;
    var a, l := Next(codec, st, Adopt(e)), Next(codec, st, Load(e));
    SameWrites(codec, st, a, e, st.engines[e].tasks);
    SameWrites(codec, st, l, e, st.engines[e].tasks);
  }

  lemma {:induction false} WritesStay(codec: Codec, st: State, s: Step)
    requires Enabled(st, s)
    ensures st.writes <= Next(codec, st, s).writes
  {
  }

  lemma {:induction false} WroteStays(codec: Codec, st: State, next: State, e: nat, ts: seq<Task>)
    requires Wrote(codec, st, e, ts) && st.writes <= next.writes
    ensures Wrote(codec, next, e, ts)
  {
    hide WroteBy;
    var k :| 0 <= k < |st.writes| && WroteBy(codec, st.writes[k], e, ts);
    assert next.writes[k] == st.writes[k];
  }

  lemma {:induction false} CompareRemembers(codec: Codec, st: State, e: nat, io: Io)
    requires e < |st.engines| && st.engines[e].op.Comparing? && EngineOk(codec, st.engines[e])
    ensures var g, n := st.engines[e], AfterCompare(codec, st, e, io);
            && n.engines[e] == g.(op := n.engines[e].op)
            && (n.engines[e].op.ReadingBack? && !n.engines[e].op.job.ConfigSave? ==>
                  Wrote(codec, n, e, n.engines[e].op.list))
  {
    hide MergeTasks, Rewritten, FateOf, AllConflict;
    var n := AfterCompare(codec, st, e, io);
    if n.engines[e].op.ReadingBack? && !n.engines[e].op.job.ConfigSave? {
      assert WroteBy(codec, n.writes[|st.writes|], e, n.engines[e].op.list);
    }
  }

  /** What looking at the config does to the memory of an engine. */
  lemma {:induction false} LookingTells(codec: Codec, st: State, e: nat)
    requires e < |st.engines| && st.engines[e].op.Idle?
    ensures var g, a, l := st.engines[e], Next(codec, st, Adopt(e)).engines[e], Next(codec, st, Load(e)).engines[e];
            && (Read(codec, st.disk).Err? ==> a == g && l == g)
            && (Read(codec, st.disk).Ok? ==>
                  && l.tasks == Read(codec, st.disk).value.cfg.tasks && l.file == st.disk && l.observed
                  && l.revision == Read(codec, st.disk).value.cfg.revision
                  && (l.deleted <==> g.deleted && st.disk.Missing?)
                  && (st.disk.Missing? && !(g.observed && g.file.Present?) ==> a == g)
                  && (st.disk.Missing? && g.observed && g.file.Present? ==>
                        a.tasks == [] && a.deleted && a.observed && a.file == Missing)
                  && (st.disk.Present? && st.disk == g.file ==> a == g)
                  && (st.disk.Present? && st.disk != g.file ==> a == l))
  {
  }

  /** The engine of a job that has written remembers, once it reads the result back, the config it finds
      then; the tasks are those it finds after a save of the whole config, and the list it wrote else. */
  lemma {:induction false} ReadBackTells(codec: Codec, st: State, e: nat)
    requires e < |st.engines| && st.engines[e].op.ReadingBack?
    ensures var g, b := st.engines[e], Next(codec, st, ReadBack(e)).engines[e];
            && b.op == Idle
            && (Read(codec, st.disk).Err? ==> b == g.(op := Idle))
            && (Read(codec, st.disk).Ok? ==>
                  && b.file == st.disk && b.revision == Read(codec, st.disk).value.cfg.revision && b.observed
                  && (g.op.job.ConfigSave? ==> b.tasks == Read(codec, st.disk).value.cfg.tasks)
                  && (!g.op.job.ConfigSave? ==> b.tasks == g.op.list)
                  && (b.deleted <==> g.deleted && st.disk.Missing?))
  {
  }

  /** A completion that finds a known config missing leaves the engine without tasks and aware of the
      deletion, and the file missing. */
  lemma {:induction false} DeletionIsNoticed(codec: Codec, st: State, e: nat)
    requires e < |st.engines| && st.engines[e].op.Reading? && st.engines[e].op.job.Completion? && st.disk.Missing?
    requires st.engines[e].deleted || (st.engines[e].observed && st.engines[e].file.Present?)
    ensures var g := Next(codec, st, ReadConfig(e)).engines[e];
            g.tasks == [] && g.deleted && g.observed && g.file == Missing && g.op == Idle
    ensures Next(codec, st, ReadConfig(e)).disk == Missing
  {
  }

  /** A panel save of tasks gets past its read exactly when the file is what the engine saw last, or it
      has never seen one; a save of the whole config exactly when file and revision are those the user
      saw.  In a run a known file already fixes its revision. */
  lemma {:induction false} SavesPassIff(codec: Codec, states: seq<State>, steps: seq<Step>, i: nat, e: nat)
    requires Run(codec, states, steps) && i < |steps| && steps[i] == ReadConfig(e)
    requires forall k :: 0 <= k < |states[0].engines| ==> Fresh(states[0].engines[k])
    requires Read(codec, states[i].disk).Ok?
    ensures e < |states[i].engines| && states[i].engines[e].op.Reading?
    ensures var g, job := states[i].engines[e], states[i].engines[e].op.job;
            var passes := states[i + 1].engines[e].op.Comparing?;
            && (job.TaskSave? ==> (passes <==> (g.observed ==> states[i].disk == g.file)))
            && (job.ConfigSave? ==>
                  (passes <==> states[i].disk == job.etag &&
                               Read(codec, states[i].disk).value.cfg.revision == job.revision))
  {
    MemoryIsReadOrWritten(codec, states, steps, i, e);
  }

  /** A completion that nobody disturbs lands: the file holds the tasks that were there, merged with the
      run, and the engine remembers them. */
  lemma {:induction false} UndisturbedCompletionLands(codec: Codec, st: State, e: nat, updates: map<string, Task>)
    returns (states: seq<State>, steps: seq<Step>)
    requires Lawful(codec) && e < |st.engines| && st.engines[e].op.Idle? && updates != map[]
    requires st.disk.Present? && Read(codec, st.disk).Ok?
    ensures steps == [Start(e, Completion(updates)), ReadConfig(e), CompareWrite(e, Works), ReadBack(e)]
    ensures |states| == 5 && states[0] == st
    ensures forall i :: 0 <= i < 4 ==> Enabled(states[i], steps[i]) && states[i + 1] == Next(codec, states[i], steps[i])
    ensures e < |states[4].engines|
    ensures var was := Read(codec, st.disk).value; var list := MergeTasks(was.cfg.tasks, updates);
            && Read(codec, states[4].disk).Ok? && Read(codec, states[4].disk).value.cfg.tasks == list
            && states[4].engines[e].tasks == list && states[4].engines[e].file == states[4].disk
            && states[4].engines[e].op == Idle
  {
    steps := [Start(e, Completion(updates)), ReadConfig(e), CompareWrite(e, Works), ReadBack(e)];
    var was := Read(codec, st.disk).value;
    var list := MergeTasks(was.cfg.tasks, updates);
    assert codec.decode(codec.encode(Config(NextRevision(was), list))) == Ok(Config(NextRevision(was), list));
    var a := Next(codec, st, steps[0]);
    var b := Next(codec, a, steps[1]);
    assert b.engines[e].op == Comparing(Completion(updates), [], was, list);
    var c := Next(codec, b, steps[2]);
    assert c.disk == Rewritten(codec, was, list) && c.engines[e].op == ReadingBack(Completion(updates), list);
    var d := Next(codec, c, steps[3]);
    states := [st, a, b, c, d];
  }
}
