/** The heartbeat engine's shared config file: compare-and-swap writes, adoption of external
    edits, and the merge of run state. */
module HeartbeatConfig {
  import opened Prelude

  /** HeartbeatTask; `definition` stands for the fields the engine never writes back. */
  datatype Task = Task(id: string, definition: string, newEachRun: bool, topicID: string, lastRunAt: int,
    createdAt: int)

  datatype Config = Config(revision: nat, tasks: seq<Task>)

  /** The config file; its digest identifies its text, so the text stands for both. */
  datatype File = Missing | Present(text: string)

  datatype Codec = Codec(decode: string -> Result<Config>, encode: Config -> string)

  ghost predicate Lawful(codec: Codec) {
    forall cfg :: codec.decode(codec.encode(cfg)) == Ok(cfg)
  }

  /** heartbeatConfigSnapshot. */
  datatype Snapshot = Snapshot(cfg: Config, file: File)

  /** readConfigSnapshot. */
  function Read(codec: Codec, file: File): Result<Snapshot> {
    match file
    case Missing => Ok(Snapshot(Config(0, []), Missing))
    case Present(text) =>
      match codec.decode(text)
      case Ok(cfg) => Ok(Snapshot(cfg, file))
      case Err(e) => Err(e)
  }

  /** A file that is not there reads as a config without tasks at revision 0; one that is there reads as
      what its text decodes to, or not at all. */
  lemma {:induction false} ReadTells(codec: Codec, file: File)
    ensures Read(codec, file).Ok? <==> file.Missing? || codec.decode(file.text).Ok?
    ensures Read(codec, file).Ok? ==> Read(codec, file).value.file == file
    ensures file.Missing? ==> Read(codec, file).value.cfg == Config(0, [])
    ensures file.Present? && Read(codec, file).Ok? ==> codec.decode(file.text) == Ok(Read(codec, file).value.cfg)
  {
  }

  const REVISIONS := 0x1_0000_0000_0000_0000

  /** Revisions are unsigned 64-bit and wrap. */
  function NextRevision(s: Snapshot): nat {
    if s.file.Missing? then 1 else (s.cfg.revision + 1) % REVISIONS
  }

  datatype Written = Done | Conflict | Failed

  /** The file a successful write leaves. */
  function Rewritten(codec: Codec, current: Snapshot, tasks: seq<Task>): File {
    Present(codec.encode(Config(NextRevision(current), tasks)))
  }

  /** Each file is a successful write of `lists[k]` over the one before. */
  ghost predicate Writes(codec: Codec, files: seq<File>, lists: seq<seq<Task>>) {
    && |files| == |lists| + 1
    && forall k :: 0 <= k < |lists| ==> Overwrites(codec, files[k], files[k + 1], lists[k])
  }

  ghost predicate Overwrites(codec: Codec, before: File, after: File, tasks: seq<Task>) {
    Read(codec, before).Ok? && after == Rewritten(codec, Read(codec, before).value, tasks)
  }

  /** After any number of writes the file reads back the list written last, and its revision is the one
      it started from, 0 for a missing file, plus the number of writes, in 64 bits. */
  lemma {:induction false} WritesAreCounted(codec: Codec, files: seq<File>, lists: seq<seq<Task>>)
    requires Lawful(codec) && Writes(codec, files, lists) && lists != []
    ensures Read(codec, files[0]).Ok?
    ensures files[|lists|].Present?
    ensures var start := if files[0].Missing? then 0 else Read(codec, files[0]).value.cfg.revision;
            codec.decode(files[|lists|].text) ==
            Ok(Config((start + |lists|) % 18446744073709551616, lists[|lists| - 1]))
  {
    var last := |lists| - 1;
    assert Overwrites(codec, files[last], files[last + 1], lists[last]);
    var base := Read(codec, files[last]).value;
    assert codec.decode(codec.encode(Config(NextRevision(base), lists[last]))).Ok?;
    if last > 0 {
      WritesAreCounted(codec, files[..last + 1], lists[..last]);
    }
  }

  // ---------------------------------------------------------------------------------
  // Merging run state
  // ---------------------------------------------------------------------------------

  /** One task of mergeHeartbeatRunUpdates. */
  function MergeTask(t: Task, u: Task): Task {
    var newer := u.lastRunAt > t.lastRunAt;
    t.(topicID := if u.topicID != "" && (t.topicID == "" || newer) then u.topicID else t.topicID,
    lastRunAt := if newer then u.lastRunAt else t.lastRunAt,
    createdAt := if t.createdAt == 0 then u.createdAt else t.createdAt)
  }

  function MergeOne(t: Task, updates: map<string, Task>): Task {
    if t.id in updates then MergeTask(t, updates[t.id]) else t
  }

  function MergeTasks(tasks: seq<Task>, updates: map<string, Task>): (out: seq<Task>)
    ensures |out| == |tasks|
    ensures forall i :: 0 <= i < |tasks| ==> out[i] == MergeOne(tasks[i], updates)
  {
    seq(|tasks|, i requires 0 <= i < |tasks| => MergeOne(tasks[i], updates))
  }

  method MergeHeartbeatRunUpdates(tasks: array<Task>, updates: map<string, Task>)
    modifies tasks
    ensures tasks[..] == MergeTasks(old(tasks[..]), updates)
  {
    ghost var was := tasks[..];
    for i := 0 to tasks.Length
      invariant forall k :: 0 <= k < i ==> tasks[k] == MergeOne(was[k], updates)
      invariant forall k :: i <= k < tasks.Length ==> tasks[k] == was[k]
    {
      if tasks[i].id in updates {
        var update := updates[tasks[i].id];
        var newerRun := update.lastRunAt > tasks[i].lastRunAt;
        if update.topicID != "" && (tasks[i].topicID == "" || newerRun) {
          tasks[i] := tasks[i].(topicID := update.topicID);
        }
        if newerRun {
          tasks[i] := tasks[i].(lastRunAt := update.lastRunAt);
        }
        if tasks[i].createdAt == 0 && update.createdAt != 0 {
          tasks[i] := tasks[i].(createdAt := update.createdAt);
        }
      }
    }
  }

  /** A merge leaves a task's identity and definition alone and fills createdAt only once. */
  predicate SameDefinition(a: Task, b: Task) {
    b == a.(topicID := b.topicID, lastRunAt := b.lastRunAt, createdAt := b.createdAt) &&
    (a.createdAt != 0 ==> b.createdAt == a.createdAt) && a.lastRunAt <= b.lastRunAt &&
      (a.topicID != "" ==> b.topicID != "")
  }

  function MergeAll(t: Task, runs: seq<map<string, Task>>): Task {
    if runs == [] then t else MergeOne(MergeAll(t, runs[..|runs| - 1]), runs[|runs| - 1])
  }

  /** The newest stamp among the start and all updates for the task. */
  function NewestRun(id: string, start: int, runs: seq<map<string, Task>>): int {
    if runs == [] then start
    else
      var prev, last := NewestRun(id, start, runs[..|runs| - 1]), runs[|runs| - 1];
      if id in last then Max(prev, last[id].lastRunAt) else prev
  }

  /** Over any sequence of merges a task's definition never changes, its stamp is the newest
      of all, and a recorded topic is never lost. */
  lemma {:induction false} MergesKeepNewest(t: Task, runs: seq<map<string, Task>>)
    ensures MergeAll(t, runs).lastRunAt == NewestRun(t.id, t.lastRunAt, runs)
    ensures SameDefinition(t, MergeAll(t, runs))
  {
    if runs != [] {
      MergesKeepNewest(t, runs[..|runs| - 1]);
    }
  }

  /** Update `n` of the runs is for the task, newer than the start and every earlier one, and carries
      a topic. */
  predicate NewerWithTopic(t: Task, runs: seq<map<string, Task>>, n: nat)
    requires n < |runs|
  {
    && t.id in runs[n] && runs[n][t.id].topicID != "" && runs[n][t.id].lastRunAt > t.lastRunAt
    && forall k :: 0 <= k < n && t.id in runs[k] ==> runs[n][t.id].lastRunAt > runs[k][t.id].lastRunAt
  }

  predicate WithTopic(t: Task, runs: seq<map<string, Task>>, n: nat)
    requires n < |runs|
  {
    t.id in runs[n] && runs[n][t.id].topicID != ""
  }

  predicate WithCreation(t: Task, runs: seq<map<string, Task>>, n: nat)
    requires n < |runs|
  {
    t.id in runs[n] && runs[n][t.id].createdAt != 0
  }

  /** The last update among the runs that is newer than all before it and carries a topic. */
  predicate LastNewer(t: Task, runs: seq<map<string, Task>>, n: nat) {
    n < |runs| && NewerWithTopic(t, runs, n) && forall k :: n < k < |runs| ==> !NewerWithTopic(t, runs, k)
  }

  predicate NoneNewer(t: Task, runs: seq<map<string, Task>>) {
    forall k :: 0 <= k < |runs| ==> !NewerWithTopic(t, runs, k)
  }

  predicate FirstTopic(t: Task, runs: seq<map<string, Task>>, n: nat) {
    n < |runs| && WithTopic(t, runs, n) && forall k :: 0 <= k < n ==> !WithTopic(t, runs, k)
  }

  predicate FirstCreation(t: Task, runs: seq<map<string, Task>>, n: nat) {
    n < |runs| && WithCreation(t, runs, n) && forall k :: 0 <= k < n ==> !WithCreation(t, runs, k)
  }

  /** The last update can be told from the start and the earlier ones by the stamp merged so far. */
  lemma {:induction false} NewerThanMerged(t: Task, runs: seq<map<string, Task>>)
    requires runs != []
    ensures var last := runs[|runs| - 1];
            NewerWithTopic(t, runs, |runs| - 1) <==>
            t.id in last && last[t.id].topicID != "" &&
            last[t.id].lastRunAt > MergeAll(t, runs[..|runs| - 1]).lastRunAt
  {
    MergesRecordStamp(t, runs[..|runs| - 1]);
  }

  lemma {:induction false} EarlierRuns(t: Task, runs: seq<map<string, Task>>, n: nat)
    requires n + 1 < |runs|
    ensures NewerWithTopic(t, runs[..|runs| - 1], n) == NewerWithTopic(t, runs, n)
    ensures WithTopic(t, runs[..|runs| - 1], n) == WithTopic(t, runs, n)
    ensures WithCreation(t, runs[..|runs| - 1], n) == WithCreation(t, runs, n)
  {
  }

  /** Over any sequence of merges the stamp is the newest of the start and all updates for the task. */
  lemma {:induction false} MergesRecordStamp(t: Task, runs: seq<map<string, Task>>)
    ensures t.lastRunAt <= MergeAll(t, runs).lastRunAt
    ensures forall k :: 0 <= k < |runs| && t.id in runs[k] ==> runs[k][t.id].lastRunAt <= MergeAll(t, runs).lastRunAt
    ensures MergeAll(t, runs).lastRunAt == t.lastRunAt ||
              exists k :: 0 <= k < |runs| && t.id in runs[k] && runs[k][t.id].lastRunAt == MergeAll(t, runs).lastRunAt
    ensures MergeAll(t, runs).id == t.id && MergeAll(t, runs).definition == t.definition &&
              MergeAll(t, runs).newEachRun == t.newEachRun
  {
    if runs != [] {
      var init := runs[..|runs| - 1];
      MergesRecordStamp(t, init);
      assert t.id in runs[|runs| - 1] && MergeAll(t, runs).lastRunAt != MergeAll(t, init).lastRunAt ==>
          runs[|runs| - 1][t.id].lastRunAt == MergeAll(t, runs).lastRunAt;
      if k :| 0 <= k < |init| && t.id in init[k] && init[k][t.id].lastRunAt == MergeAll(t, init).lastRunAt {
        assert runs[k] == init[k];
      }
    }
  }

  /** Over any sequence of merges the topic is that of the last update that carries one and is newer
      than the start and everything before it. */
  lemma {:induction false} LastNewerTopicStays(t: Task, runs: seq<map<string, Task>>, n: nat)
    requires LastNewer(t, runs, n)
    ensures MergeAll(t, runs).topicID == runs[n][t.id].topicID
  {
    hide NewerWithTopic;
    var init := runs[..|runs| - 1];
    NewerThanMerged(t, runs);
    MergesRecordStamp(t, init);
    if n < |init| {
      forall k | 0 <= k < |init| ensures NewerWithTopic(t, init, k) == NewerWithTopic(t, runs, k) {
        EarlierRuns(t, runs, k);
      }
      LastNewerTopicStays(t, init, n);
      assert WithTopic(t, init, n) by {
        NewerCarries(t, init, n);
      }
      TopicNeverLost(t, init, n);
    }
  }

  lemma {:induction false} NewerCarries(t: Task, runs: seq<map<string, Task>>, n: nat)
    requires n < |runs| && NewerWithTopic(t, runs, n)
    ensures WithTopic(t, runs, n)
  {
  }

  lemma {:induction false} TopicNeverLost(t: Task, runs: seq<map<string, Task>>, n: nat)
    requires n < |runs| && WithTopic(t, runs, n)
    ensures MergeAll(t, runs).topicID != ""
  {
    if n < |runs| - 1 {
      TopicNeverLost(t, runs[..|runs| - 1], n);
    } else {
      MergesRecordStamp(t, runs[..|runs| - 1]);
    }
  }

  /** Without such an update a recorded topic stays, and an empty one takes the first that any update
      carries. */
  lemma {:induction false} WithoutNewerTopicFirstStays(t: Task, runs: seq<map<string, Task>>)
    requires NoneNewer(t, runs)
    ensures t.topicID != "" ==> MergeAll(t, runs).topicID == t.topicID
    ensures t.topicID == "" ==>
              forall n: nat :: FirstTopic(t, runs, n) ==> MergeAll(t, runs).topicID == runs[n][t.id].topicID
    ensures t.topicID == "" && (forall n :: 0 <= n < |runs| ==> !WithTopic(t, runs, n)) ==>
              MergeAll(t, runs).topicID == ""
  {
    hide NewerWithTopic;
    if runs != [] {
      var init := runs[..|runs| - 1];
      forall k | 0 <= k < |init|
        ensures NewerWithTopic(t, init, k) == NewerWithTopic(t, runs, k)
        ensures WithTopic(t, init, k) == WithTopic(t, runs, k)
      {
        EarlierRuns(t, runs, k);
      }
      WithoutNewerTopicFirstStays(t, init);
      assert WithTopic(t, runs, |init|) <==>
          t.id in runs[|init|] && runs[|init|][t.id].topicID != "";
      NewerThanMerged(t, runs);
      MergesRecordStamp(t, init);
      forall n: nat | t.topicID == "" && FirstTopic(t, runs, n)
        ensures MergeAll(t, runs).topicID == runs[n][t.id].topicID
      {
        if n < |init| {
          assert FirstTopic(t, init, n);
          TopicNeverLost(t, init, n);
        }
      }
    }
  }

  /** Over any sequence of merges a creation time is taken once: the first that any update carries,
      and only by a task that has none. */
  lemma {:induction false} FirstCreationStays(t: Task, runs: seq<map<string, Task>>)
    ensures t.createdAt != 0 ==> MergeAll(t, runs).createdAt == t.createdAt
    ensures t.createdAt == 0 ==>
              forall n: nat :: FirstCreation(t, runs, n) ==> MergeAll(t, runs).createdAt == runs[n][t.id].createdAt
    ensures t.createdAt == 0 && (forall n :: 0 <= n < |runs| ==> !WithCreation(t, runs, n)) ==>
              MergeAll(t, runs).createdAt == 0
  {
    if runs != [] {
      var init := runs[..|runs| - 1];
      forall k | 0 <= k < |init| ensures WithCreation(t, init, k) == WithCreation(t, runs, k) {
        EarlierRuns(t, runs, k);
      }
      FirstCreationStays(t, init);
      assert WithCreation(t, runs, |init|) <==>
          t.id in runs[|init|] && runs[|init|][t.id].createdAt != 0;
      MergesRecordStamp(t, init);
      forall n: nat | t.createdAt == 0 && FirstCreation(t, runs, n)
        ensures MergeAll(t, runs).createdAt == runs[n][t.id].createdAt
      {
        if n < |init| {
          assert FirstCreation(t, init, n);
        }
      }
    }
  }

  /** An update that is not newer changes neither the stamp nor a recorded topic. */
  lemma {:induction false} StaleUpdateIsInert(t: Task, u: Task)
    requires u.lastRunAt <= t.lastRunAt
    ensures MergeTask(t, u).lastRunAt == t.lastRunAt
    ensures t.topicID != "" ==> MergeTask(t, u).topicID == t.topicID
  {
  }

  /** Merging the same completion twice is merging it once, so a retried merge is harmless. */
  lemma {:induction false} MergeIsIdempotent(tasks: seq<Task>, updates: map<string, Task>)
    ensures MergeTasks(MergeTasks(tasks, updates), updates) == MergeTasks(tasks, updates)
  {
    var once := MergeTasks(tasks, updates);
    forall i | 0 <= i < |tasks| ensures MergeOne(once[i], updates) == once[i] {
    }
  }

  /** Stamps commute: in whichever order two completions land, the stamp is the same. */
  lemma {:induction false} StampsCommute(t: Task, a: map<string, Task>, b: map<string, Task>)
    ensures MergeOne(MergeOne(t, a), b).lastRunAt == MergeOne(MergeOne(t, b), a).lastRunAt
  {
  }

  // ---------------------------------------------------------------------------------
  // The engine
  // ---------------------------------------------------------------------------------

  /** What one run-completion write did to the file: it replaced `before` by `after`, merging
      into the file's own list; only an engine that never observed the config may start a
      missing file from memory. */
  ghost predicate MergeCommit(codec: Codec, before: File, after: File, updates: map<string, Task>, memory: seq<Task>,
                              observed: bool) {
    Read(codec, before).Ok? &&
    (var base := Read(codec, before).value;
     var list := if before.Missing? && !observed then memory else base.cfg.tasks;
     after == Rewritten(codec, base, MergeTasks(list, updates)))
  }

  /** A run completion of an engine that has observed the config leaves exactly the tasks on
      disk, each with its own definition, and advances the revision by one. */
  lemma {:induction false} CompletionKeepsDiskTasks(codec: Codec, before: File, after: File, updates: map<string, Task>,
                                                    memory: seq<Task>)
    requires Lawful(codec) && MergeCommit(codec, before, after, updates, memory, true)
    ensures Read(codec, after).Ok?
    ensures var b, a := Read(codec, before).value, Read(codec, after).value;
            && |a.cfg.tasks| == |b.cfg.tasks|
            && (forall i :: 0 <= i < |b.cfg.tasks| ==>
                  SameDefinition(b.cfg.tasks[i], a.cfg.tasks[i]) && a.cfg.tasks[i].id == b.cfg.tasks[i].id)
            && a.cfg.revision == NextRevision(b)
  {
    var b := Read(codec, before).value;
    assert codec.decode(codec.encode(Config(NextRevision(b), MergeTasks(b.cfg.tasks, updates)))).Ok?;
  }

  /** How far writeTasks gets apart from the compare: the lock cannot be taken in time (or its
      directory not be made), the write fails, or both work. */
  datatype Io = NoLock | NoWrite | Works

  /** One attempt of a run-completion merge: the file as it was read, as it was when the lock was
      taken, and what the file system lets it do. */
  datatype Attempt = Attempt(read: File, at: File, io: Io)

  /** An engine that has seen the config deleted, or last saw it present, takes a missing file for
      a deletion. */
  predicate KnownGone(deleted: bool, observed: bool, file: File) {
    deleted || (observed && file.Present?)
  }

  datatype Fate = Lands | Conflicts | Drops

  /** `gone`: the engine knows the config existed, so a missing file means it was deleted. */
  function FateOf(codec: Codec, a: Attempt, gone: bool): Fate {
    if Read(codec, a.read).Err? || (a.read.Missing? && gone) || a.io.NoLock? || Read(codec, a.at).Err? then Drops
    else if a.at != a.read then Conflicts
    else if a.io.NoWrite? then Drops
    else Lands
  }

  /** A completion is recorded exactly when an attempt lands after nothing but conflicts; it is
      dropped by an unreadable or deleted file, a lock that is not taken in time, a failed write, or
      the last conflict. */
  predicate Recorded(codec: Codec, attempts: seq<Attempt>, gone: bool) {
    attempts != [] &&
    match FateOf(codec, attempts[0], gone)
    case Lands => true
    case Drops => false
    case Conflicts => Recorded(codec, attempts[1..], gone)
  }

  /** An attempt lands exactly when the file is still as it was read, lock and write work, and the file
      is either readable or missing without the engine having seen it deleted or last seen it there. */
  lemma {:induction false} LandsIff(codec: Codec, a: Attempt, deleted: bool, observed: bool, seen: File)
    ensures FateOf(codec, a, KnownGone(deleted, observed, seen)).Lands? <==>
            && a.at == a.read && a.io == Works
            && match a.read
               case Missing => !deleted && (observed ==> seen == Missing)
               case Present(text) => codec.decode(text).Ok?
  {
  }

  const ATTEMPTS := 3

  class Disk {
    var file: File
    constructor (f: File)
      ensures file == f
    {
      file := f;
    }
  }

  class HeartbeatEngine {
    const codec: Codec
    var tasks: seq<Task>
    var cfgRevision: nat
    var cfgFile: File
    var cfgInitialized: bool
    var cfgDeleted: bool
    var pendingTopics: map<string, string>

    constructor (c: Codec, ts: seq<Task>)
      ensures && codec == c && tasks == ts && !cfgInitialized && !cfgDeleted && cfgFile == Missing
              && pendingTopics == map[]
    {
      codec, tasks, cfgRevision, cfgFile, cfgInitialized, cfgDeleted, pendingTopics := c, ts, 0, Missing, false, false,
        map[];
    }

    /** The in-memory list is the one of the config last recorded. */
    ghost predicate InStep()
      reads this
    {
      cfgInitialized && cfgFile.Present? ==> Read(codec, cfgFile).Ok? && tasks == Read(codec, cfgFile).value.cfg.tasks
    }

    method RecordSnapshot(s: Snapshot)
      modifies this`cfgRevision, this`cfgFile, this`cfgInitialized, this`cfgDeleted
      ensures cfgRevision == s.cfg.revision && cfgFile == s.file && cfgInitialized
      ensures cfgDeleted == (old(cfgDeleted) && s.file.Missing?)
    {
      cfgRevision, cfgFile, cfgInitialized := s.cfg.revision, s.file, true;
      if s.file.Present? {
        cfgDeleted := false;
      }
    }

    method PrunePendingTopics(ts: seq<Task>)
      modifies this`pendingTopics
      ensures pendingTopics.Keys ==
              set id | id in old(pendingTopics) && exists i :: 0 <= i < |ts| && ts[i].newEachRun && ts[i].id == id
      ensures forall id :: id in pendingTopics ==> pendingTopics[id] == old(pendingTopics)[id]
    {
      var keep := set i | 0 <= i < |ts| && ts[i].newEachRun :: ts[i].id;
      pendingTopics := map id | id in pendingTopics && id in keep :: pendingTopics[id];
    }

    /** writeTasks under the file lock: one atomic compare and replace. */
    method WriteTasks(disk: Disk, ts: seq<Task>, expected: Snapshot, compare: bool, io: Io) returns (w: Written)
      requires Read(codec, expected.file) == Ok(expected)
      modifies disk
      ensures w.Done? ==>
                Read(codec, old(disk.file)).Ok? && disk.file == Rewritten(codec, Read(codec, old(disk.file)).value, ts)
      ensures !w.Done? ==> disk.file == old(disk.file)
      ensures compare ==> (w.Done? <==> io.Works? && old(disk.file) == expected.file)
      ensures !compare ==> (w.Done? <==> io.Works? && Read(codec, old(disk.file)).Ok?)
      ensures w.Conflict? <==>
                compare && !io.NoLock? && Read(codec, old(disk.file)).Ok? && old(disk.file) != expected.file
    {
      if io.NoLock? {
        return Failed;
      }
      var current := Read(codec, disk.file);
      if current.Err? {
        return Failed;
      }
      var now := current.value;
      if compare &&
        (now.file.Present? != expected.file.Present? || now.file != expected.file ||
        now.cfg.revision != expected.cfg.revision) {
        return Conflict;
      }
      if io.NoWrite? {
        return Failed;
      }
      disk.file := Present(codec.encode(Config(NextRevision(now), ts)));
      return Done;
    }

    /** adoptExternalEditsLocked. */
    method AdoptExternalEdits(disk: Disk)
      modifies this
      ensures Read(codec, disk.file).Err? ==>
                tasks == old(tasks) && cfgFile == old(cfgFile) && cfgInitialized == old(cfgInitialized) &&
                  cfgDeleted == old(cfgDeleted)
      ensures disk.file.Missing? && old(cfgInitialized) && old(cfgFile).Present? ==>
                tasks == [] && cfgDeleted && pendingTopics == map[]
      ensures disk.file.Missing? && !(old(cfgInitialized) && old(cfgFile).Present?) ==>
                tasks == old(tasks) && cfgDeleted == old(cfgDeleted)
      ensures disk.file.Present? && Read(codec, disk.file).Ok? && old(InStep()) ==>
                tasks == Read(codec, disk.file).value.cfg.tasks || (!old(cfgInitialized) && old(cfgFile) == disk.file)
      ensures disk.file.Present? && Read(codec, disk.file).Ok? ==> cfgFile == disk.file
      ensures disk.file.Missing? && old(cfgInitialized) ==> cfgFile == Missing
      ensures old(InStep()) ==> InStep()
    {
      var read := Read(codec, disk.file);
      if read.Err? {
        return;
      }
      var snapshot := read.value;
      if snapshot.file.Missing? {
        if cfgInitialized && cfgFile.Present? {
          tasks, pendingTopics, cfgDeleted := [], map[], true;
          RecordSnapshot(snapshot);
        }
        return;
      }
      if cfgFile.Present? && snapshot.file == cfgFile {
        return;
      }
      RecordSnapshot(snapshot);
      tasks := snapshot.cfg.tasks;
      PrunePendingTopics(tasks);
    }

    /** ReloadConfig, and the load at Start: the list on disk replaces the one in memory. */
    method ReloadConfig(disk: Disk)
      modifies this
      ensures Read(codec, disk.file).Err? ==>
                tasks == old(tasks) && cfgFile == old(cfgFile) && cfgInitialized == old(cfgInitialized)
      ensures Read(codec, disk.file).Ok? ==>
                && tasks == Read(codec, disk.file).value.cfg.tasks && cfgFile == disk.file && cfgInitialized && InStep()
                && cfgDeleted == (old(cfgDeleted) && disk.file.Missing?)
    {
      var read := Read(codec, disk.file);
      if read.Err? {
        return;
      }
      RecordSnapshot(read.value);
      tasks := read.value.cfg.tasks;
      PrunePendingTopics(tasks);
    }

    /** One attempt of mergeRunUpdatesLocked: `a.read` is the file as other writers have left it
        when it is read, `a.at` when the lock is taken and `back` when the result is read back. */
    method MergeAttempt(disk: Disk, updates: map<string, Task>, a: Attempt, back: File)
      returns (fate: Fate, ghost after: File)
      modifies this, disk
      ensures fate == FateOf(codec, a, old(KnownGone(cfgDeleted, cfgInitialized, cfgFile)))
      ensures fate.Lands? ==> MergeCommit(codec, a.read, after, updates, old(tasks), old(cfgInitialized))
      ensures fate.Lands? && tasks != old(tasks) ==> after == Rewritten(codec, Read(codec, a.read).value, tasks)
      ensures fate.Conflicts? ==>
                tasks == old(tasks) && cfgInitialized == old(cfgInitialized) && cfgDeleted == old(cfgDeleted) &&
                  cfgFile == old(cfgFile)
      ensures fate.Drops? ==> tasks == old(tasks) || (tasks == [] && cfgDeleted)
      ensures a.read.Missing? && old(KnownGone(cfgDeleted, cfgInitialized, cfgFile)) ==>
                tasks == [] && cfgDeleted && disk.file.Missing?
      ensures old(cfgInitialized) ==> cfgInitialized
    {
      after := Missing;
      disk.file := a.read;
      var read := Read(codec, disk.file);
      if read.Err? {
        return Drops, after;
      }
      var expected := read.value;
      var list := expected.cfg.tasks;
      if expected.file.Missing? {
        if cfgDeleted || (cfgInitialized && cfgFile.Present?) {
          tasks, pendingTopics, cfgDeleted := [], map[], true;
          RecordSnapshot(expected);
          return Drops, after;
        }
        if !cfgInitialized {
          list := tasks;
        }
      }
      list := MergeTasks(list, updates);
      disk.file := a.at;
      var w := WriteTasks(disk, list, expected, true, a.io);
      if w.Conflict? {
        return Conflicts, after;
      }
      if w.Failed? {
        return Drops, after;
      }
      after := disk.file;
      disk.file := back;
      var latest := Read(codec, disk.file);
      if latest.Err? {
        return Lands, after;
      }
      RecordSnapshot(latest.value);
      tasks := list;
      PrunePendingTopics(list);
      return Lands, after;
    }

    /** mergeRunUpdatesLocked with its three attempts; nothing is assumed about the files they
        meet.  `before` and `after` report the committed write, if any. */
    method MergeRunUpdates(disk: Disk, updates: map<string, Task>, attempts: seq<Attempt>, backs: seq<File>)
      returns (committed: bool, ghost before: File, ghost after: File)
      requires |attempts| == |backs| == ATTEMPTS
      modifies this, disk
      ensures committed <==>
                updates != map[] && Recorded(codec, attempts, old(KnownGone(cfgDeleted, cfgInitialized, cfgFile)))
      ensures committed ==> MergeCommit(codec, before, after, updates, old(tasks), old(cfgInitialized))
      ensures committed ==> exists n :: 0 <= n < ATTEMPTS && before == attempts[n].read == attempts[n].at
      ensures updates != map[] && attempts[0].read.Missing? && old(KnownGone(cfgDeleted, cfgInitialized, cfgFile)) ==>
                !committed && tasks == [] && cfgDeleted && disk.file.Missing?
      ensures old(cfgInitialized) ==> cfgInitialized
      ensures committed && tasks != old(tasks) ==> after == Rewritten(codec, Read(codec, before).value, tasks)
      ensures !committed ==> tasks == old(tasks) || (tasks == [] && cfgDeleted)
    {
      hide MergeCommit, Read, Rewritten;
      committed, before, after := false, Missing, Missing;
      if updates == map[] {
        return;
      }
      ghost var gone := KnownGone(cfgDeleted, cfgInitialized, cfgFile);
      assert attempts[0..] == attempts;
      for n := 0 to ATTEMPTS
        invariant && !committed && tasks == old(tasks) && cfgInitialized == old(cfgInitialized)
                  && cfgDeleted == old(cfgDeleted) && cfgFile == old(cfgFile)
        invariant Recorded(codec, attempts, gone) == Recorded(codec, attempts[n..], gone)
        invariant n > 0 ==> !(attempts[0].read.Missing? && gone)
      {
        assert attempts[n..][0] == attempts[n] && attempts[n..][1..] == attempts[n + 1..];
        var fate;
        fate, after := MergeAttempt(disk, updates, attempts[n], backs[n]);
        match fate
        case Conflicts => continue;
        case Drops => return;
        case Lands =>
          committed, before := true, attempts[n].read;
          return;
      }
    }

    /** ReplaceConfig: a panel edit bound to the revision and ETag the user saw.  `edits[0]` is
        the file when the lock is taken, `edits[1]` when it is read back; `written` is the file
        this call put in place, if any. */
    method ReplaceConfig(disk: Disk, revision: nat, etag: File, ts: seq<Task>, edits: seq<File>, io: Io)
      returns (w: Written, ghost written: Option<File>)
      requires Lawful(codec) && |edits| == 2
      modifies this, disk
      ensures written.Some? <==>
                && Read(codec, etag).Ok? && Read(codec, etag).value.cfg.revision == revision
                && edits[0] == old(disk.file) == etag && io.Works?
      ensures written.Some? ==> written.value == Rewritten(codec, Read(codec, etag).value, ts)
      ensures w.Done? <==> written.Some? && Read(codec, edits[1]).Ok?
      ensures w.Done? ==> tasks == Read(codec, edits[1]).value.cfg.tasks && cfgFile == edits[1] && cfgInitialized
      ensures !w.Done? ==> tasks == old(tasks) && cfgFile == old(cfgFile)
      ensures w.Conflict? && Read(codec, old(disk.file)).Ok? ==>
                old(disk.file) != etag || Read(codec, etag).value.cfg.revision != revision || edits[0] != old(disk.file)
    {
      written := None;
      var read := Read(codec, disk.file);
      if read.Err? {
        return Failed, written;
      }
      var expected := read.value;
      if expected.cfg.revision != revision || expected.file != etag {
        return Conflict, written;
      }
      disk.file := edits[0];
      w := WriteTasks(disk, ts, expected, true, io);
      if !w.Done? {
        return;
      }
      written := Some(disk.file);
      disk.file := edits[1];
      var latest := Read(codec, disk.file);
      if latest.Err? {
        return Failed, written;
      }
      RecordSnapshot(latest.value);
      tasks := latest.value.cfg.tasks;
      PrunePendingTopics(tasks);
    }

    /** ReplaceTasks: a panel edit from the config this engine last saw, `edits` and `written`
        as above. */
    method ReplaceTasks(disk: Disk, ts: seq<Task>, edits: seq<File>, io: Io)
      returns (w: Written, ghost written: Option<File>)
      requires Lawful(codec) && |edits| == 2
      modifies this, disk
      ensures written.Some? ==>
                && edits[0] == old(disk.file) && Read(codec, edits[0]).Ok?
                && written.value == Rewritten(codec, Read(codec, edits[0]).value, ts)
      ensures written.Some? && old(cfgInitialized) ==>
                edits[0] == old(cfgFile) && Read(codec, edits[0]).value.cfg.revision == old(cfgRevision)
      ensures (&& edits[0] == old(disk.file) && Read(codec, edits[0]).Ok? && io.Works?
               && (old(cfgInitialized) ==>
                     edits[0] == old(cfgFile) && Read(codec, edits[0]).value.cfg.revision == old(cfgRevision))) ==>
                written.Some?
      ensures w.Done? <==> written.Some? && Read(codec, edits[1]).Ok?
      ensures w.Done? ==> tasks == ts && cfgFile == edits[1]
      ensures !w.Done? ==> tasks == old(tasks) && cfgFile == old(cfgFile)
      ensures w.Done? && edits[1] == written.value ==> InStep()
      ensures w.Done? && edits[1].Present? ==> (InStep() <==> Read(codec, edits[1]).value.cfg.tasks == ts)
    {
      written := None;
      var read := Read(codec, disk.file);
      if read.Err? {
        return Failed, written;
      }
      var expected := read.value;
      if cfgInitialized &&
        (expected.file.Present? != cfgFile.Present? || expected.file != cfgFile ||
        expected.cfg.revision != cfgRevision) {
        return Conflict, written;
      }
      disk.file := edits[0];
      w := WriteTasks(disk, ts, expected, true, io);
      if !w.Done? {
        return;
      }
      written := Some(disk.file);
      disk.file := edits[1];
      var latest := Read(codec, disk.file);
      if latest.Err? {
        return Failed, written;
      }
      RecordSnapshot(latest.value);
      tasks := ts;
      PrunePendingTopics(ts);
    }
  }
}
