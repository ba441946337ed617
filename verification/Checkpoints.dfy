/** Rewind points: which files and how many a code rewind to each turn would touch. */
module Checkpoints {
  import opened Prelude

  const PREVIEW_LIMIT := 60

  /** Byte-wise lexicographic order, the order of Go strings. */
  predicate Less(a: string, b: string) {
    b != [] && (a == [] || a[0] < b[0] || (a[0] == b[0] && Less(a[1..], b[1..])))
  }

  lemma {:induction false} LessIsTotal(a: string, b: string)
    ensures Less(a, b) || a == b || Less(b, a)
    ensures !(Less(a, b) && Less(b, a)) && !Less(a, a)
  {
    if a != [] {
      LessIsTotal(a[1..], a[1..]);
      if b != [] {
        LessIsTotal(a[1..], b[1..]);
        assert a == [a[0]] + a[1..] && b == [b[0]] + b[1..];
      }
    }
  }

  lemma {:induction false} LessIsTransitive(a: string, b: string, c: string)
    requires Less(a, b) && Less(b, c)
    ensures Less(a, c)
  {
    if a != [] && a[0] == b[0] && b[0] == c[0] {
      LessIsTransitive(a[1..], b[1..], c[1..]);
    }
  }

  ghost predicate Sorted(s: seq<string>) {
    forall i, j :: 0 <= i < j < |s| ==> Less(s[i], s[j])
  }

  /** `p` lists the `limit` smallest non-empty paths of `paths`, in order. */
  ghost predicate IsPreview(p: seq<string>, paths: set<string>, limit: nat) {
    && Sorted(p) && |p| <= limit
    && (forall i :: 0 <= i < |p| ==> p[i] in paths && p[i] != "")
    && (forall path :: path in paths && path != "" && path !in p ==> |p| == limit && AllLess(p, path))
  }

  ghost predicate AllLess(p: seq<string>, path: string) {
    forall i :: 0 <= i < |p| ==> Less(p[i], path)
  }

  lemma {:induction false} PreviewsAgree(a: seq<string>, b: seq<string>, paths: set<string>, limit: nat, k: nat)
    requires IsPreview(a, paths, limit) && IsPreview(b, paths, limit) && k <= |a| && k <= |b|
    ensures forall i :: 0 <= i < k ==> a[i] == b[i]
  {
    hide Less, IsPreview;
    if k > 0 {
      PreviewsAgree(a, b, paths, limit, k - 1);
      SmallerIsListed(a, b, paths, limit, k - 1);
      SmallerIsListed(b, a, paths, limit, k - 1);
      LessIsTotal(a[k - 1], b[k - 1]);
    }
  }

  lemma {:induction false} SmallerIsListed(a: seq<string>, b: seq<string>, paths: set<string>, limit: nat, k: nat)
    requires IsPreview(a, paths, limit) && IsPreview(b, paths, limit) && k < |a| && k < |b|
    requires forall i :: 0 <= i < k ==> a[i] == b[i]
    ensures !Less(a[k], b[k])
  {
    hide Less;
    if Less(a[k], b[k]) {
      LessIsTotal(a[k], a[k]);
      LessIsTotal(a[k], b[k]);
      forall j | 0 <= j < |b| ensures b[j] != a[k] {
        if j < k {
          assert Less(a[j], a[k]);
        } else if j > k {
          assert Less(b[k], b[j]);
        }
      }
    }
  }

  /** The preview of a set of paths is unique. */
  lemma {:induction false} PreviewIsUnique(a: seq<string>, b: seq<string>, paths: set<string>, limit: nat)
    requires IsPreview(a, paths, limit) && IsPreview(b, paths, limit)
    ensures a == b
  {
    hide Less, IsPreview;
    PreviewsAgree(a, b, paths, limit, Min(|a|, |b|));
    NextIsListed(a, b, paths, limit);
    NextIsListed(b, a, paths, limit);
  }

  lemma {:induction false} NextIsListed(a: seq<string>, b: seq<string>, paths: set<string>, limit: nat)
    requires IsPreview(a, paths, limit) && IsPreview(b, paths, limit)
    requires forall i :: 0 <= i < |a| && i < |b| ==> a[i] == b[i]
    ensures |b| <= |a|
  {
    hide Less;
    if |a| < |b| {
      var next := b[|a|];
      LessIsTotal(next, next);
    }
  }

  /** sort.SearchStrings: the first index whose entry is not below `path`. */
  method SearchStrings(a: array<string>, n: nat, path: string) returns (idx: nat)
    requires n <= a.Length && Sorted(a[..n])
    ensures idx <= n
    ensures forall k :: 0 <= k < idx ==> Less(a[k], path)
    ensures forall k :: idx <= k < n ==> !Less(a[k], path)
  {
    hide Less;
    var i, j := 0, n;
    while i < j
      invariant i <= j <= n
      invariant forall k :: 0 <= k < i ==> Less(a[k], path)
      invariant forall k :: j <= k < n ==> !Less(a[k], path)
    {
      var h := (i + j) / 2;
      assert forall k :: 0 <= k < n ==> a[..n][k] == a[k];
      if Less(a[h], path) {
        forall k | 0 <= k < h + 1 ensures Less(a[k], path) {
          if k < h {
            assert Less(a[..n][k], a[..n][h]);
            LessIsTransitive(a[k], a[h], path);
          }
        }
        i := h + 1;
      } else {
        forall k | h <= k < n ensures !Less(a[k], path) {
          if k > h && Less(a[k], path) {
            assert Less(a[..n][h], a[..n][k]);
            LessIsTransitive(a[h], a[k], path);
          }
        }
        j := h;
      }
    }
    idx := i;
  }

  /** The entries after `path` is put at its place `idx`. */
  function Inserted(p: seq<string>, path: string, idx: nat, limit: nat): seq<string>
    requires idx <= |p| <= limit
  {
    if idx < |p| && p[idx] == path then p
    else if |p| < limit then p[..idx] + [path] + p[idx..]
    else if idx >= limit then p
    else p[..idx] + [path] + p[idx..limit - 1]
  }

  ghost predicate Place(p: seq<string>, path: string, idx: nat) {
    && idx <= |p| && (forall k :: 0 <= k < idx ==> Less(p[k], path))
    && (forall k :: idx <= k < |p| ==> !Less(p[k], path))
  }

  lemma {:induction false} FullWindow(p: seq<string>, path: string, idx: nat)
    requires idx <= |p|
    ensures var all := p[..idx] + [path] + p[idx..];
            |all| == |p| + 1 && all[idx] == path && (forall k :: 0 <= k < idx ==> all[k] == p[k]) &&
              (forall k :: idx < k < |all| ==> all[k] == p[k - 1])
  {
  }

  lemma {:induction false} InsertKeepsSorted(p: seq<string>, path: string, idx: nat)
    requires Sorted(p) && Place(p, path, idx) && path !in p
    ensures Sorted(p[..idx] + [path] + p[idx..])
  {
    hide Less;
    var all := p[..idx] + [path] + p[idx..];
    FullWindow(p, path, idx);
    forall i, j | 0 <= i < j < |all| ensures Less(all[i], all[j]) {
      if i == idx {
        LessIsTotal(path, p[j - 1]);
      } else if j > idx && i > idx {
        assert Less(p[i - 1], p[j - 1]);
      } else if j > idx {
        assert Less(p[i], p[j - 1]);
      }
    }
  }

  /** Adding one path to the set and inserting it in the preview agree. */
  lemma {:induction false} InsertKeepsPreview(p: seq<string>, paths: set<string>, path: string, idx: nat, limit: nat)
    requires IsPreview(p, paths, limit) && path != "" && idx <= |p| && Place(p, path, idx) && limit > 0
    ensures IsPreview(Inserted(p, path, idx, limit), paths + {path}, limit)
  {
    hide Less, IsPreview, Place, Sorted;
    PreviewParts(p, paths, limit);
    ListedAtPlace(p, paths, path, idx, limit);
    if path !in p {
      var all := p[..idx] + [path] + p[idx..];
      InsertKeepsSorted(p, path, idx);
      if |p| == limit {
        KeptIsPreview(p, paths, path, idx, limit, all);
        if idx < limit {
          assert all[..limit] == Inserted(p, path, idx, limit);
        } else {
          assert all[..limit] == p;
        }
      } else {
        GrownIsPreview(p, paths, path, idx, limit);
      }
    }
  }

  lemma {:induction false} ListedAtPlace(p: seq<string>, paths: set<string>, path: string, idx: nat, limit: nat)
    requires IsPreview(p, paths, limit) && Place(p, path, idx)
    ensures path in p ==> idx < |p| && p[idx] == path && IsPreview(p, paths + {path}, limit)
  {
    hide Less;
    if path in p {
      var j :| 0 <= j < |p| && p[j] == path;
      LessIsTotal(path, path);
    }
  }

  lemma {:induction false} GrownIsPreview(p: seq<string>, paths: set<string>, path: string, idx: nat, limit: nat)
    requires IsPreview(p, paths, limit) && |p| < limit && path != "" && idx <= |p|
    requires Sorted(p[..idx] + [path] + p[idx..])
    ensures IsPreview(p[..idx] + [path] + p[idx..], paths + {path}, limit)
  {
    hide Less, Sorted;
    var all := p[..idx] + [path] + p[idx..];
    assert all[idx] == path;
    forall q | q in p ensures q in all {
      var j :| 0 <= j < |p| && p[j] == q;
      assert all[if j < idx then j else j + 1] == q;
    }
  }

  /** Dropping the last of one entry too many keeps the smallest. */
  lemma {:induction false} KeptIsPreview(p: seq<string>, paths: set<string>, path: string, idx: nat, limit: nat,
                                         all: seq<string>)
    requires IsPreview(p, paths, limit) && |p| == limit > 0 && path != "" && idx <= |p| && Place(p, path, idx)
    requires all == p[..idx] + [path] + p[idx..] && Sorted(all)
    ensures IsPreview(all[..limit], paths + {path}, limit)
  {
    hide Less, Place;
    FullWindow(p, path, idx);
    var kept := all[..limit];
    assert forall j :: 0 <= j < limit ==> kept[j] == all[j];
    forall q | q in paths + {path} && q != "" && q !in kept ensures AllLess(kept, q) {
      if q == all[limit] {
        assert forall i :: 0 <= i < limit ==> Less(all[i], all[limit]);
      } else {
        forall j | 0 <= j < |p| ensures p[j] != q {
          assert all[if j < idx then j else j + 1] == p[j];
        }
        assert all[idx] == path;
        assert AllLess(p, q);
        LastIsBelow(p, path, idx, limit, q);
      }
    }
  }

  lemma {:induction false} LastIsBelow(p: seq<string>, path: string, idx: nat, limit: nat, q: string)
    requires |p| == limit > 0 && Place(p, path, idx) && AllLess(p, q)
    ensures AllLess((p[..idx] + [path] + p[idx..])[..limit], q)
  {
    hide Less;
    FullWindow(p, path, idx);
    if idx < limit {
      LessIsTotal(path, p[idx]);
      if Less(path, p[idx]) {
        LessIsTransitive(path, p[idx], q);
      }
    }
  }

  /** insertCheckpointFilePreview over the slice held in a[..n]; `a` has room for `limit`. */
  method InsertCheckpointFilePreview(a: array<string>, n: nat, path: string, limit: nat, ghost paths: set<string>)
    returns (m: nat)
    requires n <= limit <= a.Length && IsPreview(a[..n], paths, limit)
    modifies a
    ensures m <= limit
    ensures IsPreview(a[..m], paths + {path}, limit)
  {
    hide Less, IsPreview;
    ghost var p := a[..n];
    PreviewParts(p, paths, limit);
    if limit <= 0 || path == "" {
      SkippedPath(p, paths, path, limit);
      return n;
    }
    var idx := SearchStrings(a, n, path);
    InsertKeepsPreview(p, paths, path, idx, limit);
    if idx < n && a[idx] == path {
      return n;
    }
    if n < limit {
      ShiftIn(a, idx, n + 1, path);
      assert a[..n + 1] == p[..idx] + [path] + p[idx..];
      return n + 1;
    }
    if idx >= limit {
      return n;
    }
    ShiftIn(a, idx, limit, path);
    assert n == limit && a[..n] == p[..idx] + [path] + p[idx..limit - 1];
    return n;
  }

  /** Make room at `idx` by moving a[idx..end - 1] one place up, and put the path there. */
  method ShiftIn(a: array<string>, idx: nat, end: nat, path: string)
    requires idx < end <= a.Length
    modifies a
    ensures a[..end] == old(a[..idx]) + [path] + old(a[idx..end - 1])
  {
    forall k | idx < k < end { a[k] := a[k - 1]; }
    a[idx] := path;
  }

  lemma {:induction false} PreviewParts(p: seq<string>, paths: set<string>, limit: nat)
    requires IsPreview(p, paths, limit)
    ensures Sorted(p) && |p| <= limit
  {
  }

  lemma {:induction false} SkippedPath(p: seq<string>, paths: set<string>, path: string, limit: nat)
    requires IsPreview(p, paths, limit) && (limit == 0 || path == "")
    ensures IsPreview(p, paths + {path}, limit)
  {
  }

  /** A full preview has `limit` entries, any other lists every non-empty path. */
  lemma {:induction false} PreviewCount(p: seq<string>, paths: set<string>, limit: nat)
    requires IsPreview(p, paths, limit)
    ensures |p| == Min(limit, |paths - {""}|)
  {
    hide Less;
    DistinctCount(p);
    var listed := set path | path in p;
    assert listed <= paths - {""};
    Subset(listed, paths - {""});
    if |p| < limit {
      assert listed == paths - {""};
    }
  }

  lemma {:induction false} Subset(a: set<string>, b: set<string>)
    requires a <= b
    ensures |a| <= |b|
  {
    assert b == a + (b - a);
  }

  lemma {:induction false} DistinctCount(p: seq<string>)
    requires Sorted(p)
    ensures |set path | path in p| == |p|
  {
    hide Less;
    if p != [] {
      var last, init := p[|p| - 1], p[..|p| - 1];
      DistinctCount(init);
      LessIsTotal(last, last);
      assert last !in init;
      assert (set path | path in p) == (set path | path in init) + {last};
    }
  }

  // ---- Back-propagation over the turns ----

  datatype Checkpoint = Checkpoint(paths: seq<string>, canUndoFiles: bool)

  datatype CheckpointMeta = CheckpointMeta(
    turnFileCount: nat, canUndoFiles: bool, canCode: bool, fileCount: nat, files: seq<string>, filesTruncated: bool)

  /** Every path touched in turn i or a later one: what RestoreCode(i) reverts. */
  ghost function Touched(metas: seq<Checkpoint>, i: nat): set<string> {
    set j, path | i <= j < |metas| && path in metas[j].paths :: path
  }

  /** Turn i can rewind code: some turn from i on has files, and all those can undo them. */
  ghost predicate Rewindable(metas: seq<Checkpoint>, i: nat) {
    HasCode(metas, i) && AllUndo(metas, i)
  }

  ghost predicate HasCode(metas: seq<Checkpoint>, i: nat) {
    exists j :: i <= j < |metas| && metas[j].paths != []
  }

  ghost predicate AllUndo(metas: seq<Checkpoint>, i: nat) {
    forall j :: i <= j < |metas| && metas[j].paths != [] ==> metas[j].canUndoFiles
  }

  ghost predicate Describes(metas: seq<Checkpoint>, i: nat, meta: CheckpointMeta)
    requires i < |metas|
  {
    && meta.turnFileCount == |metas[i].paths| && meta.canUndoFiles == metas[i].canUndoFiles
    && (meta.canCode <==> Rewindable(metas, i))
    && meta.fileCount == |Touched(metas, i)|
    && IsPreview(meta.files, Touched(metas, i), PREVIEW_LIMIT)
    && (meta.filesTruncated <==> "" in Touched(metas, i) || |Touched(metas, i)| > PREVIEW_LIMIT)
  }

  lemma {:induction false} Truncation(p: seq<string>, paths: set<string>, limit: nat)
    requires IsPreview(p, paths, limit)
    ensures |p| < |paths| <==> "" in paths || |paths| > limit
  {
    hide Less, IsPreview;
    PreviewCount(p, paths, limit);
    if "" in paths {
      assert paths == (paths - {""}) + {""};
    } else {
      assert paths - {""} == paths;
    }
  }

  /** Add one turn's files to the running set and preview. */
  method AddTurn(a: array<string>, n0: nat, files0: set<string>, paths: seq<string>)
    returns (n: nat, files: set<string>)
    requires n0 <= PREVIEW_LIMIT <= a.Length && IsPreview(a[..n0], files0, PREVIEW_LIMIT)
    modifies a
    ensures n <= PREVIEW_LIMIT && IsPreview(a[..n], files, PREVIEW_LIMIT)
    ensures files == files0 + set path | path in paths
  {
    hide IsPreview;
    n, files := n0, files0;
    for k := 0 to |paths|
      invariant n <= PREVIEW_LIMIT && IsPreview(a[..n], files, PREVIEW_LIMIT)
      invariant files == files0 + set path | path in paths[..k]
    {
      assert paths[..k + 1] == paths[..k] + [paths[k]];
      if paths[k] in files {
        continue;
      }
      n := InsertCheckpointFilePreview(a, n, paths[k], PREVIEW_LIMIT, files);
      files := files + {paths[k]};
    }
    assert paths[..|paths|] == paths;
  }

  lemma {:induction false} TurnStep(metas: seq<Checkpoint>, i: nat)
    requires i < |metas|
    ensures Touched(metas, i) == Touched(metas, i + 1) + set path | path in metas[i].paths
    ensures HasCode(metas, i) <==> HasCode(metas, i + 1) || metas[i].paths != []
    ensures AllUndo(metas, i) <==> AllUndo(metas, i + 1) && (metas[i].paths != [] ==> metas[i].canUndoFiles)
  {
  }

  lemma {:induction false} NoTurns(metas: seq<Checkpoint>)
    ensures Touched(metas, |metas|) == {} && !HasCode(metas, |metas|) && AllUndo(metas, |metas|)
  {
  }

  /** CheckpointsForTab: the backward pass over the oldest-first list. */
  method CheckpointsForTab(metas: seq<Checkpoint>) returns (out: seq<CheckpointMeta>)
    ensures |out| == |metas|
    ensures forall i :: 0 <= i < |metas| ==> Describes(metas, i, out[i])
  {
    hide IsPreview, Less, Touched, HasCode, AllUndo, Describes;
    var rows := new CheckpointMeta[|metas|](i requires 0 <= i < |metas| =>
      CheckpointMeta(|metas[i].paths|, metas[i].canUndoFiles, metas[i].paths != [] && metas[i].canUndoFiles,
                     0, metas[i].paths, false));
    var hasCodeAfter, canCodeAfter := false, true;
    var a := new string[PREVIEW_LIMIT](_ => "");
    var n, files := 0, {};
    var i: nat := |metas|;
    EmptyPreview(a[..0]);
    NoTurns(metas);
    while i > 0
      invariant 0 <= i <= |metas|
      invariant hasCodeAfter == HasCode(metas, i) && canCodeAfter == AllUndo(metas, i)
      invariant n <= PREVIEW_LIMIT && files == Touched(metas, i) && IsPreview(a[..n], files, PREVIEW_LIMIT)
      invariant forall k ::
                  0 <= k < i ==>
                    && rows[k].turnFileCount == |metas[k].paths| && rows[k].canUndoFiles == metas[k].canUndoFiles
                    && rows[k].files == metas[k].paths
      invariant forall k :: i <= k < |metas| ==> Describes(metas, k, rows[k])
    {
      i := i - 1;
      if |rows[i].files| > 0 {
        hasCodeAfter := true;
        if !rows[i].canUndoFiles {
          canCodeAfter := false;
        }
      }
      TurnStep(metas, i);
      n, files := AddTurn(a, n, files, rows[i].files);
      ghost var row := rows[i];
      Described(metas, i, row, a[..n]);
      rows[i] := rows[i].(
        canCode := hasCodeAfter && canCodeAfter, fileCount := |files|, files := a[..n], filesTruncated := |files| > n);
    }
    out := rows[..];
  }

  /** The row of a turn, once its files are known. */
  lemma {:induction false} Described(metas: seq<Checkpoint>, i: nat, row: CheckpointMeta, preview: seq<string>)
    requires i < |metas| && row.turnFileCount == |metas[i].paths| && row.canUndoFiles == metas[i].canUndoFiles
    requires IsPreview(preview, Touched(metas, i), PREVIEW_LIMIT)
    ensures var files := Touched(metas, i);
            Describes(metas, i, row.(canCode := HasCode(metas, i) && AllUndo(metas, i), fileCount := |files|,
              files := preview, filesTruncated := |files| > |preview|))
  {
    hide IsPreview, Touched, HasCode, AllUndo;
    Truncation(preview, Touched(metas, i), PREVIEW_LIMIT);
  }

  lemma {:induction false} EmptyPreview(p: seq<string>)
    requires p == []
    ensures IsPreview(p, {}, PREVIEW_LIMIT)
  {
  }
}
