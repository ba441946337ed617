/** Any number of heartbeat engines over one config file: run completions, panel saves, adoption
    of edits, and external edits and deletions, interleaved step by step. */
module HeartbeatRuns {
  import opened Prelude
  import opened HeartbeatConfig

  datatype Job =
    | Completion(updates: map<string, Task>)
    | TaskSave(ts: seq<Task>)
    | ConfigSave(revision: nat, etag: File, ts: seq<Task>)

  /** Where an engine is in a job, under its own mutex: about to read the config, about to
      compare and write under the file lock, or about to read the result back.  `tried` are the
      attempts that conflicted so far. */
  datatype Op =
    | Idle
    | Reading(job: Job, tried: seq<Attempt>)
    | Comparing(job: Job, tried: seq<Attempt>, expected: Snapshot, list: seq<Task>)
    | ReadingBack(job: Job, list: seq<Task>)

  datatype Engine = Engine(tasks: seq<Task>, revision: nat, file: File, observed: bool, deleted: bool, op: Op)

  /** A write of an engine: what it had read, what it replaced and what it left. */
  datatype Write = Write(engine: nat, job: Job, observed: bool, memory: seq<Task>, read: File, before: File,
    after: File)

  /** How a job ended; `last` is the attempt it ended in, when it got as far as the lock. */
  datatype Ending = Committed | Gone | Unreadable | NotLocked | Conflicted | WriteFailed
  datatype Ended = Ended(job: Job, ending: Ending, tried: seq<Attempt>, last: Option<Attempt>, gone: bool)

  datatype State = State(disk: File, engines: seq<Engine>, writes: seq<Write>, ended: seq<Ended>)

  datatype Step =
    | Start(engine: nat, job: Job)
    | ReadConfig(engine: nat)
    | CompareWrite(engine: nat, io: Io)
    | ReadBack(engine: nat)
    | Adopt(engine: nat)
    | Load(engine: nat)
    | Edit(file: File)

  predicate Enabled(st: State, s: Step) {
    match s
    case Start(e, job) => e < |st.engines| && st.engines[e].op.Idle? && (job.Completion? ==> job.updates != map[])
    case ReadConfig(e) => e < |st.engines| && st.engines[e].op.Reading?
    case CompareWrite(e, _) => e < |st.engines| && st.engines[e].op.Comparing?
    case ReadBack(e) => e < |st.engines| && st.engines[e].op.ReadingBack?
    case Adopt(e) => e < |st.engines| && st.engines[e].op.Idle?
    case Load(e) => e < |st.engines| && st.engines[e].op.Idle?
    case Edit(_) => true
  }

  /** The engine knows that a config existed. */
  predicate KnowsGone(e: Engine) {
    KnownGone(e.deleted, e.observed, e.file)
  }

  function Record(e: Engine, s: Snapshot): Engine {
    e.(revision := s.cfg.revision, file := s.file, observed := true, deleted := e.deleted && s.file.Missing?)
  }

  function Forget(e: Engine, s: Snapshot): Engine {
    Record(e.(tasks := [], deleted := true), s)
  }

  /** The list a job would write over the snapshot, or None when it stops before the lock. */
  function Plan(e: Engine, job: Job, expected: Snapshot): Option<seq<Task>> {
    match job
    case Completion(updates) =>
      if expected.file.Missing? && KnowsGone(e) then None
      else Some(MergeTasks(if expected.file.Missing? && !e.observed then e.tasks else expected.cfg.tasks, updates))
    case TaskSave(ts) =>
      if e.observed && (expected.file != e.file || expected.cfg.revision != e.revision) then None else Some(ts)
    case ConfigSave(revision, etag, ts) =>
      if expected.cfg.revision != revision || expected.file != etag then None else Some(ts)
  }

  function Finish(st: State, e: nat, engine: Engine, ended: Ended): State
    requires e < |st.engines|
  {
    st.(engines := st.engines[e := engine.(op := Idle)], ended := st.ended + [ended])
  }

  function AfterRead(codec: Codec, st: State, e: nat): State
    requires e < |st.engines| && st.engines[e].op.Reading?
  {
    var engine := st.engines[e];
    var job, tried := engine.op.job, engine.op.tried;
    match Read(codec, st.disk)
    case Err(_) => Finish(st, e, engine, Ended(job, Unreadable, tried, None, KnowsGone(engine)))
    case Ok(expected) =>
      match Plan(engine, job, expected)
      case Some(list) => st.(engines := st.engines[e := engine.(op := Comparing(job, tried, expected, list))])
      case None =>
        if job.Completion? then
          Finish(st, e, Forget(engine, expected), Ended(job, Gone, tried, None, KnowsGone(engine)))
        else Finish(st, e, engine, Ended(job, Conflicted, tried, None, KnowsGone(engine)))
  }

  function AfterCompare(codec: Codec, st: State, e: nat, io: Io): State
    requires e < |st.engines| && st.engines[e].op.Comparing?
  {
    var engine := st.engines[e];
    var job, tried, expected, list := engine.op.job, engine.op.tried, engine.op.expected, engine.op.list;
    var attempt := Attempt(expected.file, st.disk, io);
    if io.NoLock? then Finish(st, e, engine, Ended(job, NotLocked, tried, Some(attempt), KnowsGone(engine)))
    else
      match Read(codec, st.disk)
      case Err(_) => Finish(st, e, engine, Ended(job, Unreadable, tried, Some(attempt), KnowsGone(engine)))
      case Ok(now) =>
        if now.file != expected.file || now.cfg.revision != expected.cfg.revision then
          if job.Completion? && |tried| + 1 < ATTEMPTS then
            st.(engines := st.engines[e := engine.(op := Reading(job, tried + [attempt]))])
          else Finish(st, e, engine, Ended(job, Conflicted, tried, Some(attempt), KnowsGone(engine)))
        else if io.NoWrite? then Finish(st, e, engine, Ended(job, WriteFailed, tried, Some(attempt), KnowsGone(engine)))
        else
          var after := Rewritten(codec, now, list);
          st.(disk := after, engines := st.engines[e := engine.(op := ReadingBack(job, list))],
          writes := st.writes + [Write(e, job, engine.observed, engine.tasks, expected.file, st.disk, after)],
          ended := st.ended + [Ended(job, Committed, tried, Some(attempt), KnowsGone(engine))])
  }

  function AfterReadBack(codec: Codec, engine: Engine, disk: File): Engine
    requires engine.op.ReadingBack?
  {
    match Read(codec, disk)
    case Err(_) => engine.(op := Idle)
    case Ok(latest) =>
      var tasks := if engine.op.job.ConfigSave? then latest.cfg.tasks else engine.op.list;
      Record(engine, latest).(tasks := tasks, op := Idle)
  }

  function AfterAdopt(codec: Codec, engine: Engine, disk: File): Engine {
    match Read(codec, disk)
    case Err(_) => engine
    case Ok(s) =>
      if s.file.Missing? then if engine.observed && engine.file.Present? then Forget(engine, s) else engine
      else if engine.file == s.file then engine
      else Record(engine, s).(tasks := s.cfg.tasks)
  }

  /** Start and ReloadConfig. */
  function AfterLoad(codec: Codec, engine: Engine, disk: File): Engine {
    match Read(codec, disk)
    case Err(_) => engine
    case Ok(s) => Record(engine, s).(tasks := s.cfg.tasks)
  }

  function Next(codec: Codec, st: State, s: Step): State
    requires Enabled(st, s)
  {
    match s
    case Start(e, job) => st.(engines := st.engines[e := st.engines[e].(op := Reading(job, []))])
    case ReadConfig(e) => AfterRead(codec, st, e)
    case CompareWrite(e, io) => AfterCompare(codec, st, e, io)
    case ReadBack(e) => st.(engines := st.engines[e := AfterReadBack(codec, st.engines[e], st.disk)])
    case Adopt(e) => st.(engines := st.engines[e := AfterAdopt(codec, st.engines[e], st.disk)])
    case Load(e) => st.(engines := st.engines[e := AfterLoad(codec, st.engines[e], st.disk)])
    case Edit(file) => st.(disk := file)
  }

  // ---------------------------------------------------------------------------------
  // What every run keeps
  // ---------------------------------------------------------------------------------

  ghost predicate AllConflict(codec: Codec, tried: seq<Attempt>, gone: bool) {
    forall i :: 0 <= i < |tried| ==> FateOf(codec, tried[i], gone) == Conflicts
  }

  /** A job in hand works on a readable snapshot and on the list its plan made of it. */
  ghost predicate EngineOk(codec: Codec, e: Engine) {
    match e.op
    case Idle => true
    case Reading(job, tried) =>
      (job.Completion? ==> |tried| < ATTEMPTS && AllConflict(codec, tried, KnowsGone(e))) &&
      (!job.Completion? ==> tried == [])
    case Comparing(job, tried, expected, list) =>
      && Read(codec, expected.file) == Ok(expected) && Plan(e, job, expected) == Some(list)
      && (job.Completion? ==> |tried| < ATTEMPTS && AllConflict(codec, tried, KnowsGone(e)))
      && (!job.Completion? ==> tried == [])
    case ReadingBack(_, _) => true
  }

  /** The list written by a job of an engine that held `memory` and had read `before`. */
  function Listed(w: Write, before: Snapshot): seq<Task> {
    match w.job
    case Completion(updates) =>
      MergeTasks(if before.file.Missing? && !w.observed then w.memory else before.cfg.tasks, updates)
    case TaskSave(ts) => ts
    case ConfigSave(_, _, ts) => ts
  }

  /** The write replaced exactly the file its job had read, and left the job's list under the
      next revision. */
  ghost predicate WriteOk(codec: Codec, w: Write) {
    && w.read == w.before && Read(codec, w.before).Ok?
    && w.after == Rewritten(codec, Read(codec, w.before).value, Listed(w, Read(codec, w.before).value))
    && (w.job.ConfigSave? ==> w.before == w.job.etag && Read(codec, w.before).value.cfg.revision == w.job.revision)
  }

  /** How a completion ended tells what its attempts met. */
  ghost predicate EndedOk(codec: Codec, x: Ended) {
    x.job.Completion? ==>
      && |x.tried| < ATTEMPTS && AllConflict(codec, x.tried, x.gone)
      && match x.ending
         case Committed => x.last.Some? && FateOf(codec, x.last.value, x.gone) == Lands
         case Gone => x.last.None? && x.gone
         case Unreadable => x.last.Some? ==> FateOf(codec, x.last.value, x.gone) == Drops
         case Conflicted =>
           |x.tried| + 1 == ATTEMPTS && x.last.Some? && FateOf(codec, x.last.value, x.gone) == Conflicts
         case NotLocked =>
           x.last.Some? && x.last.value.io.NoLock? && FateOf(codec, x.last.value, x.gone) == Drops
         case WriteFailed => x.last.Some? && FateOf(codec, x.last.value, x.gone) == Drops
  }

  ghost predicate Inv(codec: Codec, st: State) {
    && (forall e :: 0 <= e < |st.engines| ==> EngineOk(codec, st.engines[e]))
    && (forall k :: 0 <= k < |st.writes| ==> WriteOk(codec, st.writes[k]))
    && (forall k :: 0 <= k < |st.ended| ==> EndedOk(codec, st.ended[k]))
  }

  lemma {:induction false} ReadKeeps(codec: Codec, st: State, e: nat)
    requires Inv(codec, st) && e < |st.engines| && st.engines[e].op.Reading?
    ensures Inv(codec, AfterRead(codec, st, e))
  {
    hide AllConflict, WriteOk;
    var engine, next := st.engines[e], AfterRead(codec, st, e);
    assert EngineOk(codec, engine);
    assert EngineOk(codec, next.engines[e]);
    if |next.ended| > |st.ended| {
      assert EndedOk(codec, next.ended[|st.ended|]);
    }
  }

  lemma {:induction false} CompareEngine(codec: Codec, st: State, e: nat, io: Io)
    requires e < |st.engines| && st.engines[e].op.Comparing? && EngineOk(codec, st.engines[e])
    ensures EngineOk(codec, AfterCompare(codec, st, e, io).engines[e])
  {
    hide AllConflict, MergeTasks;
    var engine := st.engines[e];
    ConflictsGrow(codec, engine.op.tried, Attempt(engine.op.expected.file, st.disk, io), KnowsGone(engine));
  }

  lemma {:induction false} CompareLogs(codec: Codec, st: State, e: nat, io: Io)
    requires e < |st.engines| && st.engines[e].op.Comparing? && EngineOk(codec, st.engines[e])
    ensures var next := AfterCompare(codec, st, e, io);
            && (next.writes == st.writes || (exists w :: next.writes == st.writes + [w] && WriteOk(codec, w)))
            && (next.ended == st.ended || (exists x :: next.ended == st.ended + [x] && EndedOk(codec, x)))
  {
    WritesAfterCompare(codec, st, e, io);
    EndedAfterCompare(codec, st, e, io);
  }

  lemma {:induction false} WritesAfterCompare(codec: Codec, st: State, e: nat, io: Io)
    requires e < |st.engines| && st.engines[e].op.Comparing? && EngineOk(codec, st.engines[e])
    ensures var next := AfterCompare(codec, st, e, io);
            next.writes == st.writes || (exists w :: next.writes == st.writes + [w] && WriteOk(codec, w))
  {
    hide AllConflict, MergeTasks, FateOf;
    var next := AfterCompare(codec, st, e, io);
    if |next.writes| > |st.writes| {
      assert WriteOk(codec, next.writes[|st.writes|]);
    }
  }

  lemma {:induction false} EndedAfterCompare(codec: Codec, st: State, e: nat, io: Io)
    requires e < |st.engines| && st.engines[e].op.Comparing? && EngineOk(codec, st.engines[e])
    ensures var next := AfterCompare(codec, st, e, io);
            next.ended == st.ended || (exists x :: next.ended == st.ended + [x] && EndedOk(codec, x))
  {
    hide AllConflict, MergeTasks, Rewritten;
    var next := AfterCompare(codec, st, e, io);
    if |next.ended| > |st.ended| {
      assert EndedOk(codec, next.ended[|st.ended|]);
    }
  }

  lemma {:induction false} CompareKeeps(codec: Codec, st: State, e: nat, io: Io)
    requires Inv(codec, st) && e < |st.engines| && st.engines[e].op.Comparing?
    ensures Inv(codec, AfterCompare(codec, st, e, io))
  {
    hide EngineOk, WriteOk, EndedOk;
    CompareEngine(codec, st, e, io);
    CompareLogs(codec, st, e, io);
  }

  lemma {:induction false} ConflictsGrow(codec: Codec, tried: seq<Attempt>, a: Attempt, gone: bool)
    ensures AllConflict(codec, tried, gone) && FateOf(codec, a, gone) == Conflicts ==>
              AllConflict(codec, tried + [a], gone)
  {
  }

  lemma {:induction false} StepKeepsInv(codec: Codec, st: State, s: Step)
    requires Inv(codec, st) && Enabled(st, s)
    ensures Inv(codec, Next(codec, st, s))
  {
    hide WriteOk, EndedOk;
    match s
    case ReadConfig(e) => ReadKeeps(codec, st, e);
    case CompareWrite(e, io) => CompareKeeps(codec, st, e, io);
    case _ =>
      var next := Next(codec, st, s);
      forall e | 0 <= e < |next.engines| ensures EngineOk(codec, next.engines[e]) {
        assert EngineOk(codec, st.engines[e]);
      }
  }

  /** A run from any file and any idle engines. */
  ghost predicate Run(codec: Codec, states: seq<State>, steps: seq<Step>) {
    && |states| == |steps| + 1
    && states[0].writes == [] && states[0].ended == []
    && (forall e :: 0 <= e < |states[0].engines| ==> states[0].engines[e].op.Idle?)
    && forall i :: 0 <= i < |steps| ==>
         Enabled(states[i], steps[i]) && states[i + 1] == Next(codec, states[i], steps[i])
  }

  lemma {:induction false} RunInv(codec: Codec, states: seq<State>, steps: seq<Step>, i: nat)
    requires Run(codec, states, steps) && i < |states|
    ensures Inv(codec, states[i])
  {
    if i > 0 {
      RunInv(codec, states, steps, i - 1);
      StepKeepsInv(codec, states[i - 1], steps[i - 1]);
    }
  }

  /** In every run the file changes only by external edits and by writes, and every write
      replaces exactly the file its job had read, writes its job's list and raises the revision
      by one (1 when the file was absent). */
  lemma {:induction false} EveryWriteReplacesWhatItRead(codec: Codec, states: seq<State>, steps: seq<Step>, i: nat)
    requires Lawful(codec) && Run(codec, states, steps) && i < |steps|
    ensures var st, next := states[i], states[i + 1];
            if |next.writes| > |st.writes| then
              var w := next.writes[|st.writes|];
              && steps[i].CompareWrite? && next.writes == st.writes + [w] && w.before == st.disk && w.after == next.disk
              && WriteOk(codec, w)
              && Read(codec, w.after).Ok?
              && Read(codec, w.after).value.cfg ==
                   Config(NextRevision(Read(codec, w.before).value), Listed(w, Read(codec, w.before).value))
            else next.writes == st.writes && (steps[i].Edit? || next.disk == st.disk)
  {
    RunInv(codec, states, steps, i);
    RunInv(codec, states, steps, i + 1);
    WriteStep(codec, states[i], steps[i]);
    if |states[i + 1].writes| > |states[i].writes| {
      var w := states[i + 1].writes[|states[i].writes|];
      assert WriteOk(codec, w);
    }
  }

  lemma {:induction false} WriteStep(codec: Codec, st: State, s: Step)
    requires Enabled(st, s)
    ensures var next := Next(codec, st, s);
            if |next.writes| > |st.writes| then
              var w := next.writes[|st.writes|];
              s.CompareWrite? && next.writes == st.writes + [w] && w.before == st.disk && w.after == next.disk
            else next.writes == st.writes && (s.Edit? || next.disk == st.disk)
  {
  }

  // ---------------------------------------------------------------------------------
  // Engines that have observed the config
  // ---------------------------------------------------------------------------------

  /** Once an engine has observed the config it has for good. */
  lemma {:induction false} ObservedForGood(codec: Codec, states: seq<State>, steps: seq<Step>, i: nat, j: nat, e: nat)
    requires Run(codec, states, steps) && i <= j < |states| && e < |states[i].engines| && states[i].engines[e].observed
    ensures e < |states[j].engines| && states[j].engines[e].observed
    decreases j
  {
    if i < j {
      ObservedForGood(codec, states, steps, i, j - 1, e);
    }
  }

  /** A completion written by an engine that has observed the config, or over an existing file,
      leaves exactly the tasks on disk: none is added, dropped or redefined, whatever the engine
      remembers. */
  lemma {:induction false} CompletionsKeepDiskTasks(codec: Codec, w: Write)
    requires Lawful(codec) && WriteOk(codec, w) && w.job.Completion? && (w.observed || w.before.Present?)
    ensures Read(codec, w.after).Ok?
    ensures var b, a := Read(codec, w.before).value.cfg.tasks, Read(codec, w.after).value.cfg.tasks;
            |a| == |b| && forall k :: 0 <= k < |b| ==>
              a[k] == MergeOne(b[k], w.job.updates) && a[k].id == b[k].id && SameDefinition(b[k], a[k])
  {
    var b := Read(codec, w.before).value;
    assert codec.decode(codec.encode(Config(NextRevision(b), MergeTasks(b.cfg.tasks, w.job.updates)))).Ok?;
  }

  /** No run of an engine that has observed the config brings back a task absent from disk. */
  lemma {:induction false} NothingIsBroughtBack(codec: Codec, states: seq<State>, steps: seq<Step>, n: nat, k: nat,
                                                id: string)
    requires Lawful(codec) && Run(codec, states, steps) && n < |states| && k < |states[n].writes|
    requires var w := states[n].writes[k]; w.job.Completion? && (w.observed || w.before.Present?)
    ensures var w := states[n].writes[k];
            && Read(codec, w.before).Ok? && Read(codec, w.after).Ok?
            && (HasTask(Read(codec, w.after).value.cfg.tasks, id) ==>
                  HasTask(Read(codec, w.before).value.cfg.tasks, id))
  {
    RunInv(codec, states, steps, n);
    var w := states[n].writes[k];
    CompletionsKeepDiskTasks(codec, w);
    var b, a := Read(codec, w.before).value.cfg.tasks, Read(codec, w.after).value.cfg.tasks;
    if HasTask(a, id) {
      var i :| 0 <= i < |a| && a[i].id == id;
      assert b[i].id == id;
    }
  }

  predicate HasTask(tasks: seq<Task>, id: string) {
    exists i :: 0 <= i < |tasks| && tasks[i].id == id
  }

  // ---------------------------------------------------------------------------------
  // Which completions are kept, which are lost
  // ---------------------------------------------------------------------------------

  function AllAttempts(x: Ended): seq<Attempt> {
    x.tried + if x.last.Some? then [x.last.value] else []
  }

  lemma {:induction false} RecordedAfterConflicts(codec: Codec, tried: seq<Attempt>, rest: seq<Attempt>, gone: bool)
    requires AllConflict(codec, tried, gone)
    ensures Recorded(codec, tried + rest, gone) == Recorded(codec, rest, gone)
  {
    if tried == [] {
      assert tried + rest == rest;
    } else {
      assert (tried + rest)[0] == tried[0] && (tried + rest)[1..] == tried[1..] + rest;
      RecordedAfterConflicts(codec, tried[1..], rest, gone);
    }
  }

  /** In every run, every ended completion was recorded exactly when the last of its at most three
      attempts landed after nothing but conflicts; otherwise it is lost: the file could not be
      read, was deleted, could not be locked in time or written, or changed under it three times. */
  lemma {:induction false} LostCompletions(codec: Codec, states: seq<State>, steps: seq<Step>, n: nat, k: nat)
    requires Run(codec, states, steps) && n < |states| && k < |states[n].ended| && states[n].ended[k].job.Completion?
    ensures var x := states[n].ended[k];
            && |AllAttempts(x)| <= ATTEMPTS
            && (x.ending.Committed? <==> Recorded(codec, AllAttempts(x), x.gone))
            && (x.ending.Conflicted? ==> |AllAttempts(x)| == ATTEMPTS && AllConflict(codec, AllAttempts(x), x.gone))
  {
    hide Run, FateOf;
    RunInv(codec, states, steps, n);
    var x := states[n].ended[k];
    assert EndedOk(codec, x);
    var rest := if x.last.Some? then [x.last.value] else [];
    RecordedAfterConflicts(codec, x.tried, rest, x.gone);
    if x.last.Some? {
      ConflictsGrow(codec, x.tried, x.last.value, x.gone);
      assert rest[1..] == [];
    }
  }

  /** Updates of the completions written from write `from` on. */
  function UpdatesFrom(writes: seq<Write>, from: nat): seq<map<string, Task>>
    requires from <= |writes| && forall k :: from <= k < |writes| ==> writes[k].job.Completion?
  {
    seq(|writes| - from, k requires 0 <= k < |writes| - from => writes[from + k].job.updates)
  }

  function ConfigOf(codec: Codec, file: File): Config
    requires Read(codec, file).Ok?
  {
    Read(codec, file).value.cfg
  }

  /** Between states i and j nothing but run completions changes the file. */
  ghost predicate OnlyCompletions(states: seq<State>, steps: seq<Step>, i: nat, j: nat)
    requires i <= j < |states| == |steps| + 1
  {
    && (forall k :: i <= k < j ==> !steps[k].Edit?)
    && |states[i].writes| <= |states[j].writes|
    && (forall k :: |states[i].writes| <= k < |states[j].writes| ==> states[j].writes[k].job.Completion?)
  }

  lemma {:induction false} WritesGrow(codec: Codec, states: seq<State>, steps: seq<Step>, i: nat, j: nat)
    requires Run(codec, states, steps) && i <= j < |states|
    ensures states[i].writes <= states[j].writes
    decreases j
  {
    hide Next;
    if i < j {
      WritesGrow(codec, states, steps, i, j - 1);
      WriteStep(codec, states[j - 1], steps[j - 1]);
    }
  }

  /** However the completions of any number of engines interleave, the written ones are all kept:
      every task on disk is its original merged with all of them in the order they were written,
      and the revision has advanced once per write. */
  lemma {:induction false} WrittenCompletionsAreKept(codec: Codec, states: seq<State>, steps: seq<Step>, i: nat, j: nat,
                                                     t: nat)
    requires Lawful(codec) && Run(codec, states, steps) && i <= j < |states| && OnlyCompletions(states, steps, i, j)
    requires states[i].disk.Present? && Read(codec, states[i].disk).Ok? && t < |ConfigOf(codec, states[i].disk).tasks|
    ensures states[j].disk.Present? && Read(codec, states[j].disk).Ok?
    ensures var first, last := ConfigOf(codec, states[i].disk), ConfigOf(codec, states[j].disk);
            var updates := UpdatesFrom(states[j].writes, |states[i].writes|);
            && |last.tasks| == |first.tasks| && last.tasks[t] == MergeAll(first.tasks[t], updates)
            && SameRevision(last.revision, first.revision, |updates|)
    decreases j
  {
    hide Next, Lawful, MergeOne, SameDefinition;
    var from := |states[i].writes|;
    if i == j {
      assert UpdatesFrom(states[j].writes, from) == [];
    } else {
      WritesGrow(codec, states, steps, i, j - 1);
      EveryWriteReplacesWhatItRead(codec, states, steps, j - 1);
      ShorterRun(states, steps, i, j);
      WrittenCompletionsAreKept(codec, states, steps, i, j - 1, t);
      var st, next := states[j - 1], states[j];
      if |next.writes| > |st.writes| {
        OneMoreWrite(codec, st, next.writes[|st.writes|], from, ConfigOf(codec, states[i].disk), t);
      }
    }
  }

  lemma {:induction false} OneMoreWrite(codec: Codec, st: State, w: Write, from: nat, first: Config, t: nat)
    requires && Lawful(codec) && WriteOk(codec, w) && w.job.Completion? && w.before == st.disk && st.disk.Present?
             && Read(codec, st.disk).Ok?
    requires from <= |st.writes| && forall k :: from <= k < |st.writes| ==> st.writes[k].job.Completion?
    requires t < |first.tasks| == |ConfigOf(codec, st.disk).tasks|
    requires ConfigOf(codec, st.disk).tasks[t] == MergeAll(first.tasks[t], UpdatesFrom(st.writes, from))
    requires SameRevision(ConfigOf(codec, st.disk).revision, first.revision, |UpdatesFrom(st.writes, from)|)
    ensures w.after.Present? && Read(codec, w.after).Ok?
    ensures var last, updates := ConfigOf(codec, w.after), UpdatesFrom(st.writes + [w], from);
            && |last.tasks| == |first.tasks| && last.tasks[t] == MergeAll(first.tasks[t], updates)
            && SameRevision(last.revision, first.revision, |updates|)
  {
    hide MergeOne, SameDefinition, SameRevision, Listed;
    CompletionsKeepDiskTasks(codec, w);
    WriteRevision(codec, w);
    var prior, more := UpdatesFrom(st.writes, from), UpdatesFrom(st.writes + [w], from);
    assert more[..|prior|] == prior && more == prior + [w.job.updates];
    RevisionGrows(ConfigOf(codec, st.disk).revision, first.revision, |prior|);
  }

  lemma {:induction false} WriteRevision(codec: Codec, w: Write)
    requires Lawful(codec) && WriteOk(codec, w)
    ensures && w.after.Present? && Read(codec, w.after).Ok?
            && Read(codec, w.after).value.cfg.revision == NextRevision(Read(codec, w.before).value)
  {
    hide MergeTasks, MergeOne;
    var before := Read(codec, w.before).value;
    assert codec.decode(codec.encode(Config(NextRevision(before), Listed(w, before)))).Ok?;
  }

  /** The revision after `n` writes; revisions wrap at 64 bits. */
  predicate SameRevision(last: nat, first: nat, n: nat) {
    if n == 0 then last == first else last == (first + n) % REVISIONS
  }

  lemma {:induction false} RevisionGrows(prev: nat, first: nat, n: nat)
    requires SameRevision(prev, first, n)
    ensures SameRevision((prev + 1) % REVISIONS, first, n + 1)
  {
    if n > 0 {
      assert ((first + n) % REVISIONS + 1) % REVISIONS == (first + n + 1) % REVISIONS;
    }
  }

  lemma {:induction false} ShorterRun(states: seq<State>, steps: seq<Step>, i: nat, j: nat)
    requires i < j < |states| == |steps| + 1 && OnlyCompletions(states, steps, i, j)
    requires states[i].writes <= states[j - 1].writes <= states[j].writes
    ensures OnlyCompletions(states, steps, i, j - 1)
  {
  }

  /** So the newest stamp of all written completions is on disk. */
  lemma {:induction false} NewestStampIsKept(codec: Codec, states: seq<State>, steps: seq<Step>, i: nat, j: nat, t: nat)
    requires Lawful(codec) && Run(codec, states, steps) && i <= j < |states| && OnlyCompletions(states, steps, i, j)
    requires states[i].disk.Present? && Read(codec, states[i].disk).Ok? && t < |ConfigOf(codec, states[i].disk).tasks|
    ensures && Read(codec, states[j].disk).Ok?
            && |ConfigOf(codec, states[j].disk).tasks| == |ConfigOf(codec, states[i].disk).tasks|
    ensures var first, last := ConfigOf(codec, states[i].disk).tasks[t], ConfigOf(codec, states[j].disk).tasks[t];
            && SameDefinition(first, last)
            && last.lastRunAt == NewestRun(first.id, first.lastRunAt, UpdatesFrom(states[j].writes, |states[i].writes|))
  {
    hide Next, Lawful, Run;
    WrittenCompletionsAreKept(codec, states, steps, i, j, t);
    MergesKeepNewest(ConfigOf(codec, states[i].disk).tasks[t], UpdatesFrom(states[j].writes, |states[i].writes|));
  }
}
