/** Multi-part export: every part is staged beside its target before any part is published. */
module Export {
  import opened Prelude
  import EntryIds

  /** What a directory entry points to; hard links share the inode. */
  datatype Node = Node(inode: nat, content: string)

  /** What the operating system does to part i, chosen freely: each flag makes one call fail. */
  datatype Faults = Faults(
    lstat: bool,          // inspecting the target, other than by its absence
    names: seq<string>,   // temp paths tried before the reservation gives up
    reserve: bool,        // stat or chmod of the reserved temp file
    stage: bool,          // write, sync, chmod or close of the temp file
    partial: string,      // what an interrupted write or copy leaves behind
    inspect: bool,        // lstat of the temp file at commit
    link: bool,           // hard links are not supported
    relstat: bool,        // lstat of the target after linking
    open: bool,           // opening the temp file for the copy
    create: bool,         // exclusive creation of the target
    stat: bool,           // stat of the created target
    copy: bool,           // copy, sync or close of the created target
    relook: bool)         // the lstat by which a clean-up recognizes the target as its own

  type Script = nat -> Faults
  type Payloads = nat -> Result<string>

  const ATTEMPTS := 100

  // ---- The specification: how a batch ends, read off its inputs ----

  function FirstFree(names: seq<string>, taken: set<string>): (r: Option<string>)
    ensures r.Some? ==> r.value in names && r.value !in taken
    ensures r.None? ==> forall k :: 0 <= k < |names| ==> names[k] in taken
  {
    if names == [] then None else if names[0] !in taken then Some(names[0]) else FirstFree(names[1..], taken)
  }

  function Tried(f: Faults): seq<string> {
    f.names[..Min(ATTEMPTS, |f.names|)]
  }

  function PathSet(paths: seq<string>): set<string> {
    set path | path in paths
  }

  /** The temp paths of the first n parts, or None when one of them cannot be staged. */
  function Stage(taken: set<string>, payloads: Payloads, script: Script, n: nat): Option<seq<string>> {
    if n == 0 then Some([])
    else
      match Stage(taken, payloads, script, n - 1)
      case None => None
      case Some(temps) =>
        var free := FirstFree(Tried(script(n - 1)), taken + PathSet(temps));
        if payloads(n - 1).Err? || free.None? || script(n - 1).reserve || script(n - 1).stage then None
        else Some(temps + [free.value])
  }

  /** What a refused part leaves at its target: an empty file, part of a copy, or everything. */
  datatype Trace = Empty | Partial | Whole

  /** Publishing a part whose target is free. */
  datatype Publish = Done | Refused | Traced(trace: Trace)

  function PublishFree(f: Faults): Publish {
    if f.inspect then Refused
    else if !f.link then if !f.relstat then Done else if f.relook then Traced(Whole) else Refused
    else if f.open || f.create then Refused
    else if f.stat then Traced(Empty)
    else if !f.copy then Done
    else if f.relook then Traced(Partial) else Refused
  }

  function TraceContent(trace: Trace, payload: Result<string>, f: Faults): string {
    match trace
    case Empty => ""
    case Partial => f.partial
    case Whole => if payload.Ok? then payload.value else ""
  }

  datatype Progress = Going | Stopped(at: nat, trace: Option<Trace>)

  /** How far publishing the first n parts gets. */
  function Commit(taken: set<string>, targets: seq<string>, script: Script, n: nat): (p: Progress)
    requires n <= |targets|
    ensures p.Stopped? ==> p.at < n
  {
    if n == 0 then Going
    else
      var before := Commit(taken, targets, script, n - 1);
      if before != Going then before
      else if targets[n - 1] in taken + PathSet(targets[..n - 1]) then Stopped(n - 1, None)
      else
        match PublishFree(script(n - 1))
        case Done => Going
        case Refused => Stopped(n - 1, None)
        case Traced(trace) => Stopped(n - 1, Some(trace))
  }

  /** How a batch ends: saved, rejected before any part was published, or undone after the part
      `at` was refused. */
  datatype Verdict = Saved | Rejected | Undone(at: nat, trace: Option<Trace>)

  predicate Acceptable(present: set<string>, targets: seq<string>, count: nat, script: Script) {
    |targets| > 0 && |targets| == count && forall i :: 0 <= i < |targets| ==> !script(i).lstat && targets[i] !in present
  }

  function Ends(present: set<string>, targets: seq<string>, count: nat, payloads: Payloads,
    script: Script): (v: Verdict)
    ensures v.Undone? ==> v.at < |targets|
  {
    if !Acceptable(present, targets, count, script) then Rejected
    else
      match Stage(present, payloads, script, |targets|)
      case None => Rejected
      case Some(temps) =>
        match Commit(present + PathSet(temps), targets, script, |targets|)
        case Going => Saved
        case Stopped(at, trace) => Undone(at, trace)
  }

  /** Targets an undone batch leaves behind: published parts whose clean-up did not recognize
      them, and the trace of the refused part. */
  function LeftBehind(targets: seq<string>, script: Script, at: nat, trace: Option<Trace>): set<string>
    requires at < |targets|
  {
    Unrecognized(targets, script, at) + if trace.Some? then {targets[at]} else {}
  }

  function Unrecognized(targets: seq<string>, script: Script, n: nat): set<string>
    requires n <= |targets|
  {
    set j | 0 <= j < n && script(j).relook :: targets[j]
  }

  // ---- What the specification says ----

  lemma {:induction false} StagingStops(taken: set<string>, payloads: Payloads, script: Script, i: nat, n: nat)
    requires i <= n && Stage(taken, payloads, script, i).None?
    ensures Stage(taken, payloads, script, n).None?
  {
    if i < n {
      StagingStops(taken, payloads, script, i, n - 1);
    }
  }

  lemma {:induction false} CommitStops(taken: set<string>, targets: seq<string>, script: Script, i: nat, n: nat)
    requires i <= n <= |targets| && Commit(taken, targets, script, i) != Going
    ensures Commit(taken, targets, script, n) == Commit(taken, targets, script, i)
  {
    if i < n {
      CommitStops(taken, targets, script, i, n - 1);
    }
  }

  ghost predicate Free(taken: set<string>, targets: seq<string>, k: nat)
    requires k < |targets|
  {
    targets[k] !in taken && targets[k] !in targets[..k]
  }

  ghost predicate Lands(taken: set<string>, targets: seq<string>, script: Script, k: nat)
    requires k < |targets|
  {
    Free(taken, targets, k) && PublishFree(script(k)) == Done
  }

  lemma {:induction false} CommitGoesIff(taken: set<string>, targets: seq<string>, script: Script, n: nat)
    requires n <= |targets|
    ensures Commit(taken, targets, script, n) == Going <==> forall k :: 0 <= k < n ==> Lands(taken, targets, script, k)
  {
    hide PublishFree;
    if n > 0 {
      CommitGoesIff(taken, targets, script, n - 1);
      assert targets[n - 1] in PathSet(targets[..n - 1]) <==> targets[n - 1] in targets[..n - 1];
      if Commit(taken, targets, script, n - 1) == Going {
        assert Commit(taken, targets, script, n) == Going <==> Lands(taken, targets, script, n - 1);
      } else {
        var k :| 0 <= k < n - 1 && !Lands(taken, targets, script, k);
      }
    }
  }

  /** A batch is saved exactly when its targets are new and distinct, every part stages, no temp
      path is a target and no part is refused. */
  lemma {:induction false} SavedIff(present: set<string>, targets: seq<string>, count: nat, payloads: Payloads,
                                    script: Script)
    ensures Ends(present, targets, count, payloads, script) == Saved <==>
            && Acceptable(present, targets, count, script)
            && (forall i, j :: 0 <= i < j < |targets| ==> targets[i] != targets[j])
            && Stage(present, payloads, script, |targets|).Some?
            && (forall i :: 0 <= i < |targets| ==>
                  targets[i] !in Stage(present, payloads, script, |targets|).value && PublishFree(script(i)) == Done)
  {
    var staged := Stage(present, payloads, script, |targets|);
    if Acceptable(present, targets, count, script) && staged.Some? {
      var taken := present + PathSet(staged.value);
      CommitGoesIff(taken, targets, script, |targets|);
      if forall i, j :: 0 <= i < j < |targets| ==> targets[i] != targets[j] {
        assert forall k :: 0 <= k < |targets| ==> targets[k] !in targets[..k];
        assert forall k :: 0 <= k < |targets| ==>
          (Lands(taken, targets, script, k) <==> targets[k] !in staged.value && PublishFree(script(k)) == Done);
      } else {
        var i, j :| 0 <= i < j < |targets| && targets[i] == targets[j];
        assert targets[..j][i] == targets[i];
        assert !Lands(taken, targets, script, j);
      }
    }
  }

  lemma {:induction false} StoppedIff(taken: set<string>, targets: seq<string>, script: Script, n: nat, at: nat,
                                      trace: Option<Trace>)
    requires n <= |targets|
    ensures Commit(taken, targets, script, n) == Stopped(at, trace) <==>
            && at < n && Commit(taken, targets, script, at) == Going
            && (if Free(taken, targets, at) then PublishFree(script(at)) ==
                  (if trace.Some? then Traced(trace.value) else Refused) else trace.None?)
  {
    hide PublishFree, Commit;
    if at < n {
      if Commit(taken, targets, script, at) == Going {
        CommitNext(taken, targets, script, at);
        assert targets[at] in taken + PathSet(targets[..at]) <==> !Free(taken, targets, at);
        if Commit(taken, targets, script, at + 1) != Going {
          CommitStops(taken, targets, script, at + 1, n);
        } else {
          NotStoppedBelow(taken, targets, script, at + 1, n);
        }
      } else {
        CommitStops(taken, targets, script, at, n);
      }
    } else {
      StopsBefore(taken, targets, script, n);
    }
  }

  lemma {:induction false} StopsBefore(taken: set<string>, targets: seq<string>, script: Script, n: nat)
    requires n <= |targets|
    ensures Commit(taken, targets, script, n).Stopped? ==> Commit(taken, targets, script, n).at < n
  {
  }

  lemma {:induction false} NotStoppedBelow(taken: set<string>, targets: seq<string>, script: Script, i: nat, n: nat)
    requires i <= n <= |targets| && Commit(taken, targets, script, i) == Going
    ensures Commit(taken, targets, script, n).Stopped? ==> Commit(taken, targets, script, n).at >= i
  {
    hide PublishFree;
    if i < n {
      NotStoppedBelow(taken, targets, script, i, n - 1);
    }
  }

  /** A failed batch leaves a file behind exactly when the refused part left a trace or the
      clean-up did not recognize a part published before it.  The refused part leaves a trace
      exactly when its target was free and either, with hard links, the lstat of the linked
      target failed twice, or, without, the stat of the created target failed, or the copy and
      the lstat after it did. */
  lemma {:induction false} LeavesFilesIff(present: set<string>, targets: seq<string>, count: nat, payloads: Payloads,
                                          script: Script)
    requires Ends(present, targets, count, payloads, script).Undone?
    ensures var Undone(at, trace) := Ends(present, targets, count, payloads, script);
            var temps := Stage(present, payloads, script, |targets|).value;
            && (LeftBehind(targets, script, at, trace) != {} <==>
                  trace.Some? || exists j :: 0 <= j < at && script(j).relook)
            && (trace.Some? <==> Free(present + PathSet(temps), targets, at) && LeavesTrace(script(at)))
  {
    hide PublishFree, LeavesTrace, Stage, Free;
    var v := Ends(present, targets, count, payloads, script);
    var temps := Stage(present, payloads, script, |targets|).value;
    StoppedIff(present + PathSet(temps), targets, script, |targets|, v.at, v.trace);
    TraceIff(script(v.at));
    if exists j :: 0 <= j < v.at && script(j).relook {
      var j :| 0 <= j < v.at && script(j).relook;
      assert targets[j] in LeftBehind(targets, script, v.at, v.trace);
    } else {
      assert Unrecognized(targets, script, v.at) == {};
    }
    if v.trace.Some? {
      assert targets[v.at] in LeftBehind(targets, script, v.at, v.trace);
    }
  }

  predicate LeavesTrace(f: Faults) {
    !f.inspect && if !f.link then f.relstat && f.relook else !f.open && !f.create && (f.stat || (f.copy && f.relook))
  }

  lemma {:induction false} TraceIff(f: Faults)
    ensures PublishFree(f).Traced? <==> LeavesTrace(f)
  {
  }

  /** A batch is all or nothing when clean-ups recognize their files and either hard links or
      the stat of a created file work. */
  lemma {:induction false} AllOrNothing(present: set<string>, targets: seq<string>, count: nat, payloads: Payloads,
                                        script: Script)
    requires forall i :: 0 <= i < |targets| ==> !script(i).relook && !(script(i).link && script(i).stat)
    ensures var v := Ends(present, targets, count, payloads, script);
            v.Undone? ==> LeftBehind(targets, script, v.at, v.trace) == {}
  {
    hide Stage, PublishFree, Free;
    if Ends(present, targets, count, payloads, script).Undone? {
      LeavesFilesIff(present, targets, count, payloads, script);
    }
  }

  const FINE := Faults(false, [], false, false, "", false, false, false, false, false, false, false, false)

  /** No hard links, and the stat of the second part's target fails. */
  function NoLinksNoStat(i: nat): Faults {
    FINE.(names := [if i == 0 then "x" else "y"], link := true, stat := i == 1)
  }

  /** Hard links work, but the second part's target cannot be looked at once it is linked. */
  function NoLookAfterLink(i: nat): Faults {
    FINE.(names := [if i == 0 then "x" else "y"], relstat := i == 1, relook := i == 1)
  }

  function SameData(i: nat): Result<string> {
    Ok("data")
  }

  predicate TwoNames(script: Script) {
    && script(0).names == ["x"] && script(1).names == ["y"]
    && forall i :: 0 <= i < 2 ==> !script(i).lstat && !script(i).reserve && !script(i).stage
  }

  /** Two parts in an empty directory, the first of which can be published. */
  lemma {:induction false} TwoParts(script: Script)
    requires TwoNames(script) && PublishFree(script(0)) == Done && PublishFree(script(1)).Traced?
    ensures Ends({}, ["a", "b"], 2, SameData, script) == Undone(1, Some(PublishFree(script(1)).trace))
  {
    hide Stage, Commit, PathSet, PublishFree;
    BothStage(script);
    var targets := ["a", "b"];
    var taken := {} + PathSet(["x", "y"]);
    assert targets[..0] == [] && targets[..1] == ["a"];
    FreshNames();
    NothingCommitted(taken, targets, script);
    CommitNext(taken, targets, script, 0);
    CommitNext(taken, targets, script, 1);
  }

  /** An empty second target stays. */
  lemma {:induction false} SecondPartIsLeft()
    ensures Ends({}, ["a", "b"], 2, SameData, NoLinksNoStat) == Undone(1, Some(Empty))
    ensures LeftBehind(["a", "b"], NoLinksNoStat, 1, Some(Empty)) == {"b"}
  {
    hide Ends;
    TwoParts(NoLinksNoStat);
    assert Unrecognized(["a", "b"], NoLinksNoStat, 1) == {};
  }

  /** A complete second target stays although the batch failed. */
  lemma {:induction false} LinkedPartIsLeft()
    ensures Ends({}, ["a", "b"], 2, SameData, NoLookAfterLink) == Undone(1, Some(Whole))
    ensures LeftBehind(["a", "b"], NoLookAfterLink, 1, Some(Whole)) == {"b"}
  {
    hide Ends;
    TwoParts(NoLookAfterLink);
    assert Unrecognized(["a", "b"], NoLookAfterLink, 1) == {};
  }

  lemma {:induction false} FreshNames()
    ensures var none: set<string> := {};
            && "y" !in none + PathSet(["x"]) && PathSet([]) == none
            && "a" !in none + PathSet(["x", "y"]) + PathSet([]) && "b" !in none + PathSet(["x", "y"]) + PathSet(["a"])
  {
    assert "y" !in ["x"] && "a" !in ["x", "y"] && "b" !in ["x", "y"] && "b" !in ["a"];
  }

  lemma {:induction false} BothStage(script: Script)
    requires TwoNames(script)
    ensures Stage({}, SameData, script, 2) == Some(["x", "y"])
  {
    hide Stage, PathSet;
    FreshNames();
    assert Tried(script(0)) == ["x"] && Tried(script(1)) == ["y"];
    var none: set<string>, empty: map<string, Node> := {}, map[];
    NothingStaged(empty, [], SameData, script);
    assert empty.Keys == none;
    StageNext(none, SameData, script, 0, []);
    assert [] + ["x"] == ["x"] && ["x"] + ["y"] == ["x", "y"];
    StageNext(none, SameData, script, 1, ["x"]);
  }

  // ---- The file system and the export ----

  datatype StagedExportFile = StagedExportFile(targetPath: string, tempPath: string)
  datatype CommittedExportFile = CommittedExportFile(path: string, inode: nat)

  function TempPaths(staged: seq<StagedExportFile>): set<string> {
    set file | file in staged :: file.tempPath
  }

  /** Published parts the clean-up recognizes and removes. */
  function Recognized(committed: seq<CommittedExportFile>, script: Script, n: nat): set<string>
    requires n <= |committed|
  {
    set j | 0 <= j < n && !script(j).relook :: committed[j].path
  }

  lemma {:induction false} RecognizedNext(committed: seq<CommittedExportFile>, script: Script, k: nat)
    requires k < |committed|
    ensures Recognized(committed, script, k + 1) == Recognized(committed, script, k) + if script(k).relook then {}
              else {committed[k].path}
    ensures Recognized(committed, script, 0) == {}
  {
    var more := Recognized(committed, script, k) + if script(k).relook then {} else {committed[k].path};
    forall path | path in Recognized(committed, script, k + 1) ensures path in more {
      var j :| 0 <= j < k + 1 && !script(j).relook && committed[j].path == path;
    }
  }

  class FileSystem {
    var files: map<string, Node>
    var nextInode: nat

    constructor (files: map<string, Node>, nextInode: nat)
      ensures this.files == files && this.nextInode == nextInode
    {
      this.files, this.nextInode := files, nextInode;
    }

    /** O_CREATE|O_EXCL on a path that is free. */
    method CreateExclusive(path: string)
      requires path !in files
      modifies this
      ensures files == old(files)[path := Node(old(nextInode), "")]
    {
      files := files[path := Node(nextInode, "")];
      nextInode := nextInode + 1;
    }

    /** os.Remove, which works whenever the path exists. */
    method Remove(path: string)
      modifies this
      ensures files == old(files) - {path}
    {
      files := files - {path};
    }

    /** removeExportFileIfSame with a known identity; `blind` when its lstat fails. */
    method RemoveExportFileIfSame(path: string, inode: nat, blind: bool)
      modifies this
      ensures && files == if !blind && path in old(files)
              && old(files)[path].inode == inode then old(files) - {path} else old(files)
    {
      if !blind && path in files && files[path].inode == inode {
        Remove(path);
      }
    }

    method RollbackCommittedExportFiles(committed: seq<CommittedExportFile>, script: Script)
      requires forall k ::
                 0 <= k < |committed| ==>
                   committed[k].path in files && files[committed[k].path].inode == committed[k].inode
      modifies this
      ensures files == old(files) - Recognized(committed, script, |committed|)
    {
      for k := 0 to |committed|
        invariant files == old(files) - Recognized(committed, script, k)
      {
        RemoveExportFileIfSame(committed[k].path, committed[k].inode, script(k).relook);
        RecognizedNext(committed, script, k);
      }
    }

    /** The deferred clean-up of temp files. */
    method RemoveTemps(staged: seq<StagedExportFile>)
      modifies this
      ensures files == old(files) - TempPaths(staged)
    {
      for k := 0 to |staged|
        invariant files == old(files) - TempPaths(staged[..k])
      {
        Remove(staged[k].tempPath);
        assert staged[..k + 1] == staged[..k] + [staged[k]];
        assert TempPaths(staged[..k + 1]) == TempPaths(staged[..k]) + {staged[k].tempPath};
      }
      assert staged[..|staged|] == staged;
    }

    /** createExportTempFile. */
    method CreateExportTempFile(f: Faults) returns (temp: Option<string>)
      modifies this
      ensures temp == if f.reserve then None else FirstFree(Tried(f), old(files).Keys)
      ensures files == if temp.Some? then old(files)[temp.value := Node(old(nextInode), "")] else old(files)
    {
      var k := 0;
      var tried := Tried(f);
      assert tried[0..] == tried;
      while k < |tried|
        invariant 0 <= k <= |tried| && files == old(files) && nextInode == old(nextInode)
        invariant FirstFree(tried, files.Keys) == FirstFree(tried[k..], files.Keys)
      {
        var path := tried[k];
        if path in files {
          assert tried[k..][1..] == tried[k + 1..];
          k := k + 1;
          continue;
        }
        CreateExclusive(path);
        if f.reserve {
          Remove(path);
          assert files == old(files);
          return None;
        }
        return Some(path);
      }
      return None;
    }

    /** commitStagedExportFile: link, or copy into an exclusively created target. */
    method CommitStagedExportFile(tempPath: string, targetPath: string, f: Faults) returns (inode: Option<nat>)
      requires tempPath in files
      modifies this
      ensures inode.Some? <==> targetPath !in old(files) && PublishFree(f) == Done
      ensures inode.Some? ==> files == old(files)[targetPath := Node(inode.value, old(files)[tempPath].content)]
      ensures inode.None? && targetPath !in old(files) && PublishFree(f).Traced? ==>
                && targetPath in files && files == old(files)[targetPath := files[targetPath]]
                && files[targetPath].content == TraceContent(PublishFree(f).trace, Ok(old(files)[tempPath].content), f)
      ensures inode.None? && (targetPath in old(files) || PublishFree(f) == Refused) ==> files == old(files)
    {
      if f.inspect {
        return None;
      }
      var staged := files[tempPath];
      if !f.link && targetPath !in files {
        files := files[targetPath := staged];
        if f.relstat {
          RemoveExportFileIfSame(targetPath, staged.inode, f.relook);
          assert !f.relook ==> files == old(files);
          return None;
        }
        return Some(staged.inode);
      }
      if f.open || f.create || targetPath in files {
        return None;
      }
      var created := nextInode;
      CreateExclusive(targetPath);
      if f.stat {
        // No identity is known, so removeExportFileIfSame does nothing.
        return None;
      }
      if f.copy {
        files := files[targetPath := Node(created, f.partial)];
        RemoveExportFileIfSame(targetPath, created, f.relook);
        assert f.relook ==> files == old(files)[targetPath := files[targetPath]];
        assert !f.relook ==> files == old(files);
        return None;
      }
      files := files[targetPath := Node(created, staged.content)];
      return Some(created);
    }

    /** Stage every part. */
    method StageAll(targets: seq<string>, payloads: Payloads, script: Script)
      returns (staged: seq<StagedExportFile>, ok: bool)
      modifies this
      ensures Beside(old(files), files, staged)
      ensures ok <==> Stage(old(files).Keys, payloads, script, |targets|).Some?
      ensures ok ==> |staged| == |targets| && Staged(files, staged, targets, payloads, |targets|)
      ensures ok ==> TempPaths(staged) == PathSet(Stage(old(files).Keys, payloads, script, |targets|).value)
    {
      hide Stage, TempPaths, PathSet, Staged, Beside;
      ghost var base := files;
      staged := [];
      ghost var temps := [];
      NothingStaged(files, targets, payloads, script);
      for i := 0 to |targets|
        invariant && |staged| == |temps| == i && Stage(base.Keys, payloads, script, i) == Some(temps)
                  && TempPaths(staged) == PathSet(temps)
        invariant Beside(base, files, staged) && Staged(files, staged, targets, payloads, i)
      {
        StageNext(base.Keys, payloads, script, i, temps);
        BesideKeys(base, files, staged, temps);
        var payload := payloads(i);
        if payload.Err? {
          StagingStops(base.Keys, payloads, script, i + 1, |targets|);
          return staged, false;
        }
        ghost var before, earlier := files, staged;
        var temp := CreateExportTempFile(script(i));
        if temp.None? {
          StagingStops(base.Keys, payloads, script, i + 1, |targets|);
          return staged, false;
        }
        staged := staged + [StagedExportFile(targets[i], temp.value)];
        var content := if script(i).stage then script(i).partial else payload.value;
        files := files[temp.value := files[temp.value].(content := content)];
        BesideNext(base, before, files, earlier, temps, targets[i], temp.value);
        if script(i).stage {
          StagingStops(base.Keys, payloads, script, i + 1, |targets|);
          return staged, false;
        }
        StagedKept(before, files, earlier, targets, payloads, i, temp.value);
        temps := temps + [temp.value];
      }
      ok := true;
    }

    /** Publish every staged part, undoing the published ones when one is refused. */
    method CommitAll(staged: seq<StagedExportFile>, targets: seq<string>, ghost payloads: Payloads, script: Script)
      returns (ok: bool)
      requires |staged| == |targets| && Staged(files, staged, targets, payloads, |targets|)
      modifies this
      ensures forall path :: path in old(files) ==> path in files && files[path] == old(files)[path]
      ensures var end := Commit(old(files).Keys, targets, script, |targets|);
              && (ok <==> end == Going)
              && (end == Going ==>
                    files.Keys == old(files).Keys + PathSet(targets) && Holds(files, targets, payloads, |targets|))
              && (end.Stopped? ==> files.Keys == old(files).Keys + LeftBehind(targets, script, end.at, end.trace) &&
                                   LeftHold(files, targets, payloads, script, end.at, end.trace))
    {
      hide PublishFree, Commit, LeftBehind, LeftHold, Publishes;
      ghost var base := files;
      var committed: seq<CommittedExportFile> := [];
      NothingCommitted(base.Keys, targets, script);
      NothingPublished(base, targets, payloads);
      for i := 0 to |staged|
        invariant Commit(base.Keys, targets, script, i) == Going && |committed| == i
        invariant Publishes(base, files, committed, targets, payloads, i)
      {
        CommitNext(base.Keys, targets, script, i);
        PublishedKeys(base, files, committed, targets, payloads, i);
        assert StagedAt(base, staged[i], targets[i], payloads(i));
        ghost var before := files;
        var inode := CommitStagedExportFile(staged[i].tempPath, staged[i].targetPath, script(i));
        if inode.None? {
          ghost var end := Commit(base.Keys, targets, script, i + 1);
          CommitStops(base.Keys, targets, script, i + 1, |targets|);
          ghost var traced := files;
          RollbackCommittedExportFiles(committed, script);
          RolledBack(base, before, traced, committed, targets, payloads, script, i, end.trace);
          return false;
        }
        PublishedNext(base, before, committed, targets, payloads, i, inode.value);
        committed := committed + [CommittedExportFile(staged[i].targetPath, inode.value)];
      }
      ok := true;
      PublishedKeys(base, files, committed, targets, payloads, |targets|);
      assert targets[..|targets|] == targets;
    }

    /** saveExclusiveExportPayloads.  The directory is exactly as before, apart from the complete
        parts of a saved batch or what an undone batch leaves behind. */
    method SaveExclusiveExportPayloads(targets: seq<string>, count: nat, payloads: Payloads, script: Script)
      returns (ok: bool)
      modifies this
      ensures ok <==> Ends(old(files).Keys, targets, count, payloads, script) == Saved
      ensures forall path :: path in old(files) ==> path in files && files[path] == old(files)[path]
      ensures match Ends(old(files).Keys, targets, count, payloads, script)
              case Saved =>
                files.Keys == old(files).Keys + PathSet(targets) && Holds(files, targets, payloads, |targets|)
              case Rejected => files == old(files)
              case Undone(at, trace) =>
                && files.Keys == old(files).Keys + LeftBehind(targets, script, at, trace)
                && LeftHold(files, targets, payloads, script, at, trace)
    {
      hide Stage, Commit, TempPaths, Staged, Holds, Beside, LeftBehind, LeftHold;
      if |targets| == 0 || |targets| != count {
        return false;
      }
      for i := 0 to |targets|
        invariant files == old(files) && forall k :: 0 <= k < i ==> !script(k).lstat && targets[k] !in files
      {
        if script(i).lstat || targets[i] in files {
          return false;
        }
      }
      ghost var base := files;
      var staged, staging := StageAll(targets, payloads, script);
      if !staging {
        TempsGone(base, files, staged, files, {});
        RemoveTemps(staged);
        return false;
      }
      ghost var withTemps := files;
      BesideKeys(base, files, staged, Stage(base.Keys, payloads, script, |targets|).value);
      ok := CommitAll(staged, targets, payloads, script);
      ghost var published := files;
      ghost var end := Commit(withTemps.Keys, targets, script, |targets|);
      TargetsAvoidTemps(withTemps.Keys, targets, script);
      TempsGone(base, withTemps, staged, files, if end == Going then PathSet(targets)
        else LeftBehind(targets, script, end.at, end.trace));
      RemoveTemps(staged);
      if ok {
        StillHeld(published, files, targets, payloads);
      } else {
        StillLeft(published, files, targets, payloads, script, end.at, end.trace);
      }
    }
  }

  ghost predicate StagedAt(files: map<string, Node>, file: StagedExportFile, target: string, payload: Result<string>) {
    file.targetPath == target && file.tempPath in files && payload.Ok? && files[file.tempPath].content == payload.value
  }

  /** The first n parts are staged in full. */
  ghost predicate Staged(files: map<string, Node>, staged: seq<StagedExportFile>, targets: seq<string>,
                         payloads: Payloads, n: nat) {
    n <= |targets| && n <= |staged| && forall k :: 0 <= k < n ==> StagedAt(files, staged[k], targets[k], payloads(k))
  }

  ghost predicate HoldsAt(files: map<string, Node>, target: string, payload: Result<string>) {
    target in files && payload.Ok? && files[target].content == payload.value
  }

  ghost predicate Holds(files: map<string, Node>, targets: seq<string>, payloads: Payloads, n: nat) {
    n <= |targets| && forall k :: 0 <= k < n ==> HoldsAt(files, targets[k], payloads(k))
  }

  /** What an undone batch leaves behind is whole, except for the trace of the refused part. */
  ghost predicate LeftHold(files: map<string, Node>, targets: seq<string>, payloads: Payloads, script: Script, at: nat,
                           trace: Option<Trace>)
    requires at < |targets|
  {
    && (forall j :: 0 <= j < at && script(j).relook ==> HoldsAt(files, targets[j], payloads(j)))
    && (trace.Some? ==>
          targets[at] in files && files[targets[at]].content == TraceContent(trace.value, payloads(at), script(at)))
  }

  ghost predicate CommittedAt(base: map<string, Node>, files: map<string, Node>, file: CommittedExportFile,
                              target: string) {
    file.path == target && target !in base && target in files && files[target].inode == file.inode
  }

  /** The first n parts are published over `base`. */
  ghost predicate Publishes(base: map<string, Node>, files: map<string, Node>, committed: seq<CommittedExportFile>,
                            targets: seq<string>, payloads: Payloads, n: nat) {
    && n <= |targets| && |committed| == n && Holds(files, targets, payloads, n)
    && files.Keys == base.Keys + PathSet(targets[..n])
    && (forall path :: path in base ==> files[path] == base[path])
    && (forall k :: 0 <= k < n ==> CommittedAt(base, files, committed[k], targets[k]))
  }

  /** The directory is `base` plus the temp files. */
  ghost predicate Beside(base: map<string, Node>, files: map<string, Node>, staged: seq<StagedExportFile>) {
    && TempPaths(staged) !! base.Keys && files.Keys == base.Keys + TempPaths(staged)
    && forall path :: path in base ==> files[path] == base[path]
  }

  lemma {:induction false} NothingStaged(files: map<string, Node>, targets: seq<string>, payloads: Payloads,
                                         script: Script)
    ensures Stage(files.Keys, payloads, script, 0) == Some([]) && TempPaths([]) == PathSet([])
    ensures Beside(files, files, []) && Staged(files, [], targets, payloads, 0)
  {
  }

  lemma {:induction false} StageNext(taken: set<string>, payloads: Payloads, script: Script, i: nat, temps: seq<string>)
    requires Stage(taken, payloads, script, i) == Some(temps)
    ensures var free := FirstFree(Tried(script(i)), taken + PathSet(temps));
            Stage(taken, payloads, script, i + 1) ==
            if payloads(i).Err? || free.None? || script(i).reserve ||
              script(i).stage then None else Some(temps + [free.value])
  {
  }

  lemma {:induction false} BesideKeys(base: map<string, Node>, files: map<string, Node>, staged: seq<StagedExportFile>,
                                      temps: seq<string>)
    requires Beside(base, files, staged) && TempPaths(staged) == PathSet(temps)
    ensures files.Keys == base.Keys + PathSet(temps)
  {
  }

  lemma {:induction false} BesideNext(base: map<string, Node>, before: map<string, Node>, files: map<string, Node>,
                                      staged: seq<StagedExportFile>, temps: seq<string>, target: string, temp: string)
    requires Beside(base, before, staged) && TempPaths(staged) == PathSet(temps) && temp !in before
    requires files.Keys == before.Keys + {temp} && forall path :: path in before ==> files[path] == before[path]
    ensures Beside(base, files, staged + [StagedExportFile(target, temp)])
    ensures TempPaths(staged + [StagedExportFile(target, temp)]) == PathSet(temps + [temp])
  {
    assert TempPaths(staged + [StagedExportFile(target, temp)]) == TempPaths(staged) + {temp};
  }

  /** Removing the temp files again. */
  lemma {:induction false} TempsGone(base: map<string, Node>, staging: map<string, Node>, staged: seq<StagedExportFile>,
                                     files: map<string, Node>, extra: set<string>)
    requires Beside(base, staging, staged) && files.Keys == staging.Keys + extra && extra !! staging.Keys
    requires forall path :: path in staging ==> files[path] == staging[path]
    ensures (files - TempPaths(staged)).Keys == base.Keys + extra
    ensures forall path ::
              path in base ==> path in files - TempPaths(staged) && (files - TempPaths(staged))[path] == base[path]
    ensures forall path :: path in extra ==> (files - TempPaths(staged))[path] == files[path]
    ensures extra == {} ==> files - TempPaths(staged) == base
  {
  }

  lemma {:induction false} StagedKept(before: map<string, Node>, files: map<string, Node>,
                                      staged: seq<StagedExportFile>, targets: seq<string>, payloads: Payloads, i: nat,
                                      temp: string)
    requires Staged(before, staged, targets, payloads, i) && |staged| == i < |targets| && temp !in before
    requires temp in files && payloads(i) == Ok(files[temp].content) && forall path :: path in before ==>
               path in files && files[path] == before[path]
    ensures Staged(files, staged + [StagedExportFile(targets[i], temp)], targets, payloads, i + 1)
  {
    var more := staged + [StagedExportFile(targets[i], temp)];
    forall k | 0 <= k < i + 1 ensures StagedAt(files, more[k], targets[k], payloads(k)) {
      if k < i {
        assert StagedAt(before, staged[k], targets[k], payloads(k));
      }
    }
  }

  lemma {:induction false} NothingCommitted(taken: set<string>, targets: seq<string>, script: Script)
    ensures Commit(taken, targets, script, 0) == Going && targets[..0] == []
  {
  }

  lemma {:induction false} CommitNext(taken: set<string>, targets: seq<string>, script: Script, i: nat)
    requires i < |targets| && Commit(taken, targets, script, i) == Going
    ensures var next, publish := Commit(taken, targets, script, i + 1), PublishFree(script(i));
            if targets[i] in taken + PathSet(targets[..i]) then next == Stopped(i, None)
            else next == if publish == Done then Going
              else Stopped(i, if publish == Refused then None else Some(publish.trace))
  {
  }

  lemma {:induction false} NothingPublished(base: map<string, Node>, targets: seq<string>, payloads: Payloads)
    ensures Publishes(base, base, [], targets, payloads, 0)
  {
    assert targets[..0] == [];
  }

  lemma {:induction false} PublishedKeys(base: map<string, Node>, files: map<string, Node>,
                                         committed: seq<CommittedExportFile>,
                                         targets: seq<string>, payloads: Payloads, n: nat)
    requires Publishes(base, files, committed, targets, payloads, n)
    ensures n <= |targets| && |committed| == n && Holds(files, targets, payloads, n)
    ensures files.Keys == base.Keys + PathSet(targets[..n])
    ensures forall path :: path in base ==> files[path] == base[path]
    ensures forall k ::
              0 <= k < |committed| ==>
                committed[k].path in files && files[committed[k].path].inode == committed[k].inode
  {
    forall k | 0 <= k < n ensures targets[k] in files {
      assert HoldsAt(files, targets[k], payloads(k));
    }
  }

  /** Rolling back the first n parts, with or without a trace of part n. */
  lemma {:induction false} RolledBack(base: map<string, Node>, before: map<string, Node>, traced: map<string, Node>,
                                      committed: seq<CommittedExportFile>,
                                      targets: seq<string>, payloads: Payloads, script: Script, n: nat,
                                        trace: Option<Trace>)
    requires && n < |targets| && Publishes(base, before, committed, targets, payloads, n)
             && Commit(base.Keys, targets, script, n) == Going
    requires trace.None? ==> traced == before
    requires trace.Some? ==>
               targets[n] !in before && targets[n] in traced && traced == before[targets[n] := traced[targets[n]]] &&
                             traced[targets[n]].content == TraceContent(trace.value, payloads(n), script(n))
    ensures var files := traced - Recognized(committed, script, n);
            && files.Keys == base.Keys + LeftBehind(targets, script, n, trace)
            && LeftHold(files, targets, payloads, script, n, trace)
            && forall path :: path in base ==> path in files && files[path] == base[path]
  {
    hide Commit, PublishFree, TraceContent, Publishes, LeftBehind, Recognized;
    PublishedKeys(base, before, committed, targets, payloads, n);
    PublishedOnce(base, before, committed, targets, payloads, script, n);
    var gone := Recognized(committed, script, n);
    forall path ensures path in traced - gone <==> path in base || path in LeftBehind(targets, script, n, trace) {
      PathAfterRollback(base, before, traced, committed, targets, payloads, script, n, trace, path);
    }
    forall path | path in base ensures path in traced - gone {
    }
    ContentsLeft(before, traced, targets, payloads, script, n, trace, gone);
  }

  /** The published parts have distinct targets, new to the directory. */
  lemma {:induction false} PublishedOnce(base: map<string, Node>, before: map<string, Node>,
                                         committed: seq<CommittedExportFile>, targets: seq<string>,
                                         payloads: Payloads, script: Script, n: nat)
    requires && n < |targets| && Publishes(base, before, committed, targets, payloads, n)
             && Commit(base.Keys, targets, script, n) == Going
    ensures forall j :: 0 <= j < n ==>
              && targets[j] in before && targets[j] !in base
              && (targets[j] in Recognized(committed, script, n) <==> !script(j).relook)
    ensures targets[n] !in before ==> targets[n] !in Recognized(committed, script, n)
  {
    hide Commit, PublishFree;
    CommitGoesIff(base.Keys, targets, script, n);
    forall j, k | 0 <= j < k < n ensures targets[j] != targets[k] {
      assert Lands(base.Keys, targets, script, k) && targets[..k][j] == targets[j];
    }
    forall j | 0 <= j < n
      ensures && targets[j] in before && targets[j] !in base
              && (targets[j] in Recognized(committed, script, n) <==> !script(j).relook)
    {
      assert HoldsAt(before, targets[j], payloads(j));
      assert committed[j].path == targets[j];
    }
  }

  lemma {:induction false} ContentsLeft(before: map<string, Node>, traced: map<string, Node>, targets: seq<string>,
                                        payloads: Payloads, script: Script, n: nat, trace: Option<Trace>,
                                        gone: set<string>)
    requires n < |targets| && Holds(before, targets, payloads, n)
    requires trace.None? ==> traced == before
    requires trace.Some? ==>
               && targets[n] !in before && targets[n] in traced && traced == before[targets[n] := traced[targets[n]]]
               && traced[targets[n]].content == TraceContent(trace.value, payloads(n), script(n)) && targets[n] !in gone
    requires forall j :: 0 <= j < n ==> targets[j] in before && (targets[j] in gone <==> !script(j).relook)
    ensures LeftHold(traced - gone, targets, payloads, script, n, trace)
  {
    hide TraceContent;
    forall j | 0 <= j < n && script(j).relook ensures HoldsAt(traced - gone, targets[j], payloads(j)) {
      assert HoldsAt(before, targets[j], payloads(j));
    }
  }

  lemma {:induction false} PathAfterRollback(base: map<string, Node>, before: map<string, Node>,
                                             traced: map<string, Node>, committed: seq<CommittedExportFile>,
                                             targets: seq<string>, payloads: Payloads, script: Script, n: nat,
                                               trace: Option<Trace>, path: string)
    requires n < |targets| && Publishes(base, before, committed, targets, payloads, n)
    requires trace.None? ==> traced == before
    requires trace.Some? ==>
               targets[n] !in before && targets[n] in traced && traced == before[targets[n] := traced[targets[n]]]
    requires forall j ::
               0 <= j < n ==>
                 && targets[j] in before && targets[j] !in base
                 && (targets[j] in Recognized(committed, script, n) <==> !script(j).relook)
    ensures path in traced - Recognized(committed, script, n) <==>
              path in base || path in LeftBehind(targets, script, n, trace)
  {
    var gone := Recognized(committed, script, n);
    assert forall p :: p in gone ==> p !in base && p in before;
    if path in traced - gone && path !in base {
      if path in before {
        assert path in targets[..n];
        var j :| 0 <= j < n && targets[..n][j] == path;
        assert script(j).relook && targets[j] == path;
      }
    }
    if path in Unrecognized(targets, script, n) {
      var j :| 0 <= j < n && script(j).relook && targets[j] == path;
    }
  }

  lemma {:induction false} PublishedNext(base: map<string, Node>, before: map<string, Node>,
                                         committed: seq<CommittedExportFile>, targets: seq<string>, payloads: Payloads,
                                         n: nat, inode: nat)
    requires && Publishes(base, before, committed, targets, payloads, n) && n < |targets| && targets[n] !in before
             && payloads(n).Ok?
    ensures Publishes(base, before[targets[n] := Node(inode, payloads(n).value)], committed +
              [CommittedExportFile(targets[n], inode)], targets, payloads, n + 1)
  {
    hide Holds;
    var files := before[targets[n] := Node(inode, payloads(n).value)];
    var more := committed + [CommittedExportFile(targets[n], inode)];
    PathSetNext(targets, n);
    HeldNext(before, targets, payloads, n, inode);
    forall k | 0 <= k < n + 1 ensures CommittedAt(base, files, more[k], targets[k]) {
      if k < n {
        assert CommittedAt(base, before, committed[k], targets[k]);
      }
    }
    assert files.Keys == before.Keys + {targets[n]};
  }

  lemma {:induction false} PathSetNext(targets: seq<string>, n: nat)
    requires n < |targets|
    ensures PathSet(targets[..n + 1]) == PathSet(targets[..n]) + {targets[n]}
  {
    assert targets[..n + 1] == targets[..n] + [targets[n]];
  }

  lemma {:induction false} HeldNext(before: map<string, Node>, targets: seq<string>, payloads: Payloads, n: nat,
                                    inode: nat)
    requires Holds(before, targets, payloads, n) && n < |targets| && targets[n] !in before && payloads(n).Ok?
    ensures Holds(before[targets[n] := Node(inode, payloads(n).value)], targets, payloads, n + 1)
  {
    var files := before[targets[n] := Node(inode, payloads(n).value)];
    forall k | 0 <= k < n + 1 ensures HoldsAt(files, targets[k], payloads(k)) {
      if k < n {
        assert HoldsAt(before, targets[k], payloads(k));
      }
    }
  }

  lemma {:induction false} StillHeld(before: map<string, Node>, files: map<string, Node>, targets: seq<string>,
                                     payloads: Payloads)
    requires Holds(before, targets, payloads, |targets|)
    requires forall path :: path in PathSet(targets) ==> path in before && path in files && files[path] == before[path]
    ensures Holds(files, targets, payloads, |targets|)
  {
    forall k | 0 <= k < |targets| ensures HoldsAt(files, targets[k], payloads(k)) {
      assert HoldsAt(before, targets[k], payloads(k));
      assert targets[k] in PathSet(targets);
    }
  }

  lemma {:induction false} StillLeft(before: map<string, Node>, files: map<string, Node>, targets: seq<string>,
                                     payloads: Payloads, script: Script, at: nat, trace: Option<Trace>)
    requires at < |targets| && LeftHold(before, targets, payloads, script, at, trace)
    requires forall path ::
               path in LeftBehind(targets, script, at, trace) ==>
                 path in before && path in files && files[path] == before[path]
    ensures LeftHold(files, targets, payloads, script, at, trace)
  {
    forall j | 0 <= j < at && script(j).relook ensures HoldsAt(files, targets[j], payloads(j)) {
      assert HoldsAt(before, targets[j], payloads(j));
      assert targets[j] in Unrecognized(targets, script, at);
    }
  }

  lemma {:induction false} TargetsAvoidTemps(taken: set<string>, targets: seq<string>, script: Script)
    ensures var end := Commit(taken, targets, script, |targets|);
            && (end == Going ==> PathSet(targets) !! taken)
            && (end.Stopped? ==> LeftBehind(targets, script, end.at, end.trace) !! taken)
  {
    hide PublishFree, Commit;
    CommitGoesIff(taken, targets, script, |targets|);
    var end := Commit(taken, targets, script, |targets|);
    if end.Stopped? {
      StoppedIff(taken, targets, script, |targets|, end.at, end.trace);
      CommitGoesIff(taken, targets, script, end.at);
      forall path | path in LeftBehind(targets, script, end.at, end.trace) ensures path !in taken {
        if path in Unrecognized(targets, script, end.at) {
          var j :| 0 <= j < end.at && script(j).relook && targets[j] == path;
          assert Lands(taken, targets, script, j);
        }
      }
    } else {
      forall path | path in PathSet(targets) ensures path !in taken {
        var k :| 0 <= k < |targets| && targets[k] == path;
        assert Lands(taken, targets, script, k);
      }
    }
  }

  // ---- Numbered parts ----

  /** numberedExportPath of a path already split at its extension. */
  function NumberedExportPath(stem: string, ext: string, part: nat, count: nat): string {
    if count <= 1 then stem + ext
    else stem + "-" + EntryIds.Decimal(part + 1) + PartTail(ext, count)
  }

  function PartTail(ext: string, count: nat): string {
    "-of-" + EntryIds.Decimal(count) + ext
  }

  /** Parts of one export never share a path. */
  lemma {:induction false} NumberedPathsAreDistinct(stem: string, ext: string, count: nat, i: nat, j: nat)
    requires i < count && j < count && i != j
    ensures NumberedExportPath(stem, ext, i, count) != NumberedExportPath(stem, ext, j, count)
  {
    hide EntryIds.Decimal, EntryIds.Value, PartTail;
    EntryIds.ValueOfDecimal(i + 1);
    EntryIds.ValueOfDecimal(j + 1);
    SameMiddle(stem + "-", EntryIds.Decimal(i + 1), EntryIds.Decimal(j + 1), PartTail(ext, count));
  }

  lemma {:induction false} SameMiddle(head: string, a: string, b: string, tail: string)
    ensures head + a + tail == head + b + tail ==> a == b
  {
    var x, y := head + a + tail, head + b + tail;
    if x == y {
      assert |a| == |b|;
      assert x[|head|..|head| + |a|] == a && y[|head|..|head| + |b|] == b;
    }
  }
}
