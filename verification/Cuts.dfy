/** Budget cuts: which suffix of whole-message groups a page keeps. */
module Cuts {
  import opened Prelude
  import opened Entries

  /** entryGroup: the entries one message contributes. */
  datatype Group = Group(index: nat, entries: seq<Entry>, bytes: nat)

  /** The groups of consecutive messages from `base` on, given the entries of each; messages
      without entries form no group. */
  function GroupsOf(parts: seq<seq<Entry>>, base: nat): (gs: seq<Group>)
    ensures forall k :: 0 <= k < |gs| ==> base <= gs[k].index < base + |parts|
  {
    if parts == [] then []
    else
      var prev, last := GroupsOf(parts[..|parts| - 1], base), parts[|parts| - 1];
      if last == [] then prev else prev + [Group(base + |parts| - 1, last, BytesOf(last))]
  }

  function EntryCount(gs: seq<Group>): nat {
    if gs == [] then 0 else |gs[0].entries| + EntryCount(gs[1..])
  }

  function ByteCount(gs: seq<Group>): nat {
    if gs == [] then 0 else gs[0].bytes + ByteCount(gs[1..])
  }

  function AllEntries(gs: seq<Group>): seq<Entry> {
    if gs == [] then [] else gs[0].entries + AllEntries(gs[1..])
  }

  predicate Fits(gs: seq<Group>, maxEntries: int, maxBytes: int) {
    EntryCount(gs) <= maxEntries && ByteCount(gs) <= maxBytes
  }

  lemma {:induction false} CountsAppend(a: seq<Group>, b: seq<Group>)
    ensures EntryCount(a + b) == EntryCount(a) + EntryCount(b)
    ensures ByteCount(a + b) == ByteCount(a) + ByteCount(b)
    ensures AllEntries(a + b) == AllEntries(a) + AllEntries(b)
  {
    if a == [] {
      assert a + b == b;
    } else {
      assert (a + b)[1..] == a[1..] + b;
      CountsAppend(a[1..], b);
    }
  }

  lemma {:induction false} CountsHead(gs: seq<Group>, maxEntries: int, maxBytes: int)
    requires gs != []
    ensures EntryCount(gs) == |gs[0].entries| + EntryCount(gs[1..]) && ByteCount(gs) == gs[0].bytes + ByteCount(gs[1..])
    ensures |gs| == 1 ==> EntryCount(gs) == |gs[0].entries| && ByteCount(gs) == gs[0].bytes
    ensures Fits(gs, maxEntries, maxBytes) <==> EntryCount(gs) <= maxEntries && ByteCount(gs) <= maxBytes
  {
  }

  /** A longer suffix costs at least as much. */
  lemma {:induction false} LongerCostsMore(gs: seq<Group>, j: nat, k: nat)
    requires j <= k <= |gs|
    ensures EntryCount(gs[k..]) <= EntryCount(gs[j..]) && ByteCount(gs[k..]) <= ByteCount(gs[j..])
  {
    assert gs[j..] == gs[j..k] + gs[k..];
    CountsAppend(gs[j..k], gs[k..]);
  }

  /** `gs[k..]` is the longest suffix within both budgets, or just the newest group. */
  ghost predicate IsCut(gs: seq<Group>, maxEntries: int, maxBytes: int, k: nat) {
    if gs == [] then k == 0
    else
      && k < |gs|
      && (k == |gs| - 1 || Fits(gs[k..], maxEntries, maxBytes))
      && forall j :: 0 <= j < k ==> !Fits(gs[j..], maxEntries, maxBytes)
  }

  lemma {:induction false} CutIsUnique(gs: seq<Group>, maxEntries: int, maxBytes: int, a: nat, b: nat)
    requires IsCut(gs, maxEntries, maxBytes, a) && IsCut(gs, maxEntries, maxBytes, b)
    ensures a == b
  {
  }

  /** Where the longest affordable suffix begins, found from the newest group backwards. */
  function Cut(gs: seq<Group>, maxEntries: int, maxBytes: int): (k: nat)
    ensures gs == [] ==> k == 0
    ensures gs != [] ==> k < |gs|
  {
    if gs == [] then 0 else CutFrom(gs, maxEntries, maxBytes, |gs| - 1)
  }

  function CutFrom(gs: seq<Group>, maxEntries: int, maxBytes: int, k: nat): (c: nat)
    requires k < |gs|
    ensures c <= k
  {
    if k > 0 && Fits(gs[k - 1..], maxEntries, maxBytes) then CutFrom(gs, maxEntries, maxBytes, k - 1) else k
  }

  lemma {:induction false} CutFromIsCut(gs: seq<Group>, maxEntries: int, maxBytes: int, k: nat)
    requires k < |gs| && (k == |gs| - 1 || Fits(gs[k..], maxEntries, maxBytes))
    ensures IsCut(gs, maxEntries, maxBytes, CutFrom(gs, maxEntries, maxBytes, k))
    decreases k
  {
    if k > 0 {
      if Fits(gs[k - 1..], maxEntries, maxBytes) {
        CutFromIsCut(gs, maxEntries, maxBytes, k - 1);
      } else {
        forall j | 0 <= j < k ensures !Fits(gs[j..], maxEntries, maxBytes) {
          LongerCostsMore(gs, j, k - 1);
        }
      }
    }
  }

  /** The backward walk finds the longest affordable suffix. */
  lemma {:induction false} CutIsCut(gs: seq<Group>, maxEntries: int, maxBytes: int)
    ensures IsCut(gs, maxEntries, maxBytes, Cut(gs, maxEntries, maxBytes))
  {
    if gs != [] {
      CutFromIsCut(gs, maxEntries, maxBytes, |gs| - 1);
    }
  }

  /** Dropping the oldest groups while over budget, after each new group, finds the same
      suffix: what was unaffordable stays unaffordable as newer groups arrive. */
  lemma {:induction false} UnaffordableStays(gs: seq<Group>, g: Group, maxEntries: int, maxBytes: int, k: nat)
    requires k <= |gs| && forall j :: 0 <= j < k ==> !Fits(gs[j..], maxEntries, maxBytes)
    ensures forall j :: 0 <= j < k ==> !Fits((gs + [g])[j..], maxEntries, maxBytes)
  {
    forall j | 0 <= j < k ensures !Fits((gs + [g])[j..], maxEntries, maxBytes) {
      assert (gs + [g])[j..] == gs[j..] + [g];
      CountsAppend(gs[j..], [g]);
    }
  }

  /** Entries of one more group at the end. */
  lemma {:induction false} AllEntriesSnoc(gs: seq<Group>, g: Group)
    ensures AllEntries(gs + [g]) == AllEntries(gs) + g.entries
  {
    CountsAppend(gs, [g]);
    assert AllEntries([g]) == g.entries + AllEntries([g][1..]);
  }

  lemma {:induction false} FlattenSnoc(parts: seq<seq<Entry>>, from: nat)
    requires from < |parts|
    ensures Flatten(parts[from..]) == Flatten(parts[..|parts| - 1][from..]) + parts[|parts| - 1]
  {
    var init, last := parts[..|parts| - 1], parts[|parts| - 1];
    assert parts[from..] == init[from..] + [last];
    FlattenAppend(init[from..], [last]);
    FlattenSingle(last);
  }

  lemma {:induction false} GroupsSnoc(parts: seq<seq<Entry>>, base: nat)
    ensures parts == [] ==> GroupsOf(parts, base) == []
    ensures parts != [] ==>
              var prev, last := GroupsOf(parts[..|parts| - 1], base), parts[|parts| - 1];
              GroupsOf(parts, base) ==
              if last == [] then prev else prev + [Group(base + |parts| - 1, last, BytesOf(last))]
  {
  }

  /** The groups from the `k`th on carry all entries of the messages from its message on. */
  lemma {:induction false} GroupsJoin(parts: seq<seq<Entry>>, base: nat, k: nat)
    requires k < |GroupsOf(parts, base)|
    ensures AllEntries(GroupsOf(parts, base)[k..]) == Flatten(parts[GroupsOf(parts, base)[k].index - base..])
  {
    hide AllEntries, Flatten, GroupsOf, BytesOf;
    GroupsSnoc(parts, base);
    var init, last := parts[..|parts| - 1], parts[|parts| - 1];
    var prev, gs := GroupsOf(init, base), GroupsOf(parts, base);
    FlattenSnoc(parts, gs[k].index - base);
    if k < |prev| {
      GroupsJoin(init, base, k);
      var before := Flatten(init[gs[k].index - base..]);
      assert before + [] == before;
      if last != [] {
        assert gs[k..] == prev[k..] + [gs[|prev|]];
        AllEntriesSnoc(prev[k..], gs[|prev|]);
      }
    } else {
      OneGroup(gs, k, init);
    }
  }

  lemma {:induction false} OneGroup(gs: seq<Group>, k: nat, init: seq<seq<Entry>>)
    requires k == |gs| - 1
    ensures AllEntries(gs[k..]) == gs[k].entries && Flatten(init[|init|..]) + gs[k].entries == gs[k].entries
  {
    assert gs[k..] == [] + [gs[k]];
    AllEntriesSnoc([], gs[k]);
    assert init[|init|..] == [];
  }

  lemma {:induction false} NothingJoins()
    ensures AllEntries([]) == [] && Flatten<Entry>([]) == []
  {
  }

  /** Together the groups carry every entry. */
  lemma {:induction false} AllGroupsJoin(parts: seq<seq<Entry>>, base: nat)
    ensures AllEntries(GroupsOf(parts, base)) == Flatten(parts)
  {
    hide AllEntries, Flatten, GroupsOf, BytesOf;
    GroupsSnoc(parts, base);
    NothingJoins();
    if parts != [] {
      var init, last := parts[..|parts| - 1], parts[|parts| - 1];
      AllGroupsJoin(init, base);
      assert parts == init + [last];
      FlattenAppend(init, [last]);
      FlattenSingle(last);
      assert Flatten(init) + [] == Flatten(init);
      if last != [] {
        AllEntriesSnoc(GroupsOf(init, base), Group(base + |parts| - 1, last, BytesOf(last)));
      }
    }
  }

  /** First message of the page cut from `parts`: the one of the oldest kept group, or the
      first of all when nothing was rendered. */
  function CutStart(parts: seq<seq<Entry>>, base: nat, maxEntries: int, maxBytes: int): (start: nat)
    ensures base <= start && (parts != [] ==> start < base + |parts|)
  {
    var gs := GroupsOf(parts, base);
    if gs == [] then base else gs[Cut(gs, maxEntries, maxBytes)].index
  }

  function CutEntries(parts: seq<seq<Entry>>, base: nat, maxEntries: int, maxBytes: int): seq<Entry> {
    var gs := GroupsOf(parts, base);
    AllEntries(gs[Cut(gs, maxEntries, maxBytes)..])
  }

  /** What a page keeps is everything from its first message on. */
  lemma {:induction false} CutKeepsSuffix(parts: seq<seq<Entry>>, base: nat, maxEntries: int, maxBytes: int)
    ensures CutStart(parts, base, maxEntries, maxBytes) <= base + |parts|
    ensures CutEntries(parts, base, maxEntries, maxBytes) ==
              Flatten(parts[CutStart(parts, base, maxEntries, maxBytes) - base..])
  {
    var gs := GroupsOf(parts, base);
    if gs == [] {
      AllGroupsJoin(parts, base);
      assert gs[0..] == gs && parts[0..] == parts;
    } else {
      GroupsJoin(parts, base, Cut(gs, maxEntries, maxBytes));
    }
  }

  /** A page keeps the longest run of newest messages of its window within the entry and byte
      budgets, or only the newest message that renders anything. */
  lemma {:induction false} PageFillsBudgets(parts: seq<seq<Entry>>, base: nat, maxEntries: int, maxBytes: int)
    returns (k: nat)
    ensures var gs := GroupsOf(parts, base);
            && k <= |gs| && IsCut(gs, maxEntries, maxBytes, k)
            && CutEntries(parts, base, maxEntries, maxBytes) == AllEntries(gs[k..])
            && (k < |gs| ==> CutStart(parts, base, maxEntries, maxBytes) == gs[k].index)
  {
    k := Cut(GroupsOf(parts, base), maxEntries, maxBytes);
    CutIsCut(GroupsOf(parts, base), maxEntries, maxBytes);
  }

  /** One round of the page loop: append the group of a message, then trim the front. */
  method AppendAndTrim(kept: seq<Group>, entryCount: nat, byteCount: nat, g: Group, maxEntries: int, maxBytes: int,
                       ghost all: seq<Group>)
    returns (keptNow: seq<Group>, entryNow: nat, byteNow: nat)
    requires entryCount == EntryCount(kept) && byteCount == ByteCount(kept)
    requires kept == all[Cut(all, maxEntries, maxBytes)..]
    ensures entryNow == EntryCount(keptNow) && byteNow == ByteCount(keptNow)
    ensures keptNow == (all + [g])[Cut(all + [g], maxEntries, maxBytes)..]
  {
    hide Cut, Fits, EntryCount, ByteCount;
    ghost var gs := all + [g];
    ghost var k: nat := Cut(all, maxEntries, maxBytes);
    CutIsCut(all, maxEntries, maxBytes);
    UnaffordableStays(all, g, maxEntries, maxBytes, k);
    CountsAppend(kept, [g]);
    CountsHead([g], maxEntries, maxBytes);
    keptNow := kept + [g];
    entryNow, byteNow := entryCount + |g.entries|, byteCount + g.bytes;
    while |keptNow| > 1 && (entryNow > maxEntries || byteNow > maxBytes)
      invariant 0 <= k < |gs| && keptNow == gs[k..]
      invariant entryNow == EntryCount(keptNow) && byteNow == ByteCount(keptNow)
      invariant forall j :: 0 <= j < k ==> !Fits(gs[j..], maxEntries, maxBytes)
      decreases |keptNow|
    {
      CountsHead(keptNow, maxEntries, maxBytes);
      entryNow := entryNow - |keptNow[0].entries|;
      byteNow := byteNow - keptNow[0].bytes;
      assert gs[k..][1..] == gs[k + 1..];
      keptNow := keptNow[1..];
      k := k + 1;
    }
    CountsHead(keptNow, maxEntries, maxBytes);
    CutIsCut(gs, maxEntries, maxBytes);
    CutIsUnique(gs, maxEntries, maxBytes, k, Cut(gs, maxEntries, maxBytes));
  }
}
