/** The sources of a live session: the display index of the persisted prefix plus the unsaved
    tail, and the full in-memory snapshot it must agree with. */
module LiveSource {
  import opened Prelude
  import opened HistoryModel
  import opened HistorySource
  import opened Entries
  import opened Cuts
  import opened PageSpec
  import EntryIds

  /** DisplayIndexEntry, as far as paging reads it. */
  datatype IndexEntry = IndexEntry(role: Role, authoredTurn: nat)

  /** SessionDisplayIndex. */
  datatype Index = Index(entries: seq<IndexEntry>, authoredTurns: nat)

  /** agent.PersistedState. */
  datatype Persisted = Persisted(revision: int, revKnown: bool, digest: string, epoch: int)

  predicate StartsTurn(r: Rules, m: Message) {
    m.role.User? && Authored(r, m)
  }

  /** Turns the index counts in the first `n` messages: authored user messages. */
  function AuthoredTurns(r: Rules, msgs: seq<Message>, n: nat): nat
    requires n <= |msgs|
  {
    if n == 0 then 0 else AuthoredTurns(r, msgs, n - 1) + if StartsTurn(r, msgs[n - 1]) then 1 else 0
  }

  /** Turns the desktop counts in messages [from, n): visible user messages. */
  function VisibleTurns(r: Rules, msgs: seq<Message>, from: nat, n: nat): nat
    requires from <= n <= |msgs|
    decreases n
  {
    if n == from then 0 else VisibleTurns(r, msgs, from, n - 1) + if VisibleUser(r, msgs[n - 1]) then 1 else 0
  }

  predicate EntryFor(r: Rules, e: IndexEntry, msgs: seq<Message>, i: nat)
    requires i < |msgs|
  {
    e.role == msgs[i].role && e.authoredTurn == AuthoredTurns(r, msgs, i + 1)
  }

  /** The index is what BuildSessionDisplayIndex makes of the first messages of `msgs`. */
  ghost predicate Describes(r: Rules, idx: Index, msgs: seq<Message>) {
    && |idx.entries| <= |msgs| && idx.authoredTurns == AuthoredTurns(r, msgs, |idx.entries|)
    && forall i :: 0 <= i < |idx.entries| ==> EntryFor(r, idx.entries[i], msgs, i)
  }

  /** encodeDisplayIndexEntries: extend the index of a prefix with the messages after it. */
  method ExtendIndex(r: Rules, prev: Index, msgs: seq<Message>) returns (idx: Index)
    requires Describes(r, prev, msgs)
    ensures Describes(r, idx, msgs) && |idx.entries| == |msgs| && prev.entries <= idx.entries
  {
    hide Authored;
    var entries, turn := prev.entries, prev.authoredTurns;
    for i := |prev.entries| to |msgs|
      invariant |entries| == i && turn == AuthoredTurns(r, msgs, i) && prev.entries <= entries
      invariant forall j :: 0 <= j < i ==> EntryFor(r, entries[j], msgs, j)
    {
      if msgs[i].role.User? && Authored(r, msgs[i]) {
        turn := turn + 1;
      }
      entries := entries + [IndexEntry(msgs[i].role, turn)];
    }
    return Index(entries, turn);
  }

  // ---------------------------------------------------------------------------------
  // The two live sources
  // ---------------------------------------------------------------------------------

  /** Turn of message `i` when the first `k` messages come from the index. */
  function LiveTurn(r: Rules, msgs: seq<Message>, k: nat, i: nat): nat
    requires k <= |msgs| && i < |msgs|
  {
    if i < k then AuthoredTurns(r, msgs, i + 1) else AuthoredTurns(r, msgs, k) + VisibleTurns(r, msgs, k, i + 1)
  }

  function Roles(msgs: seq<Message>): (roles: seq<Role>)
    ensures |roles| == |msgs| && forall i :: 0 <= i < |msgs| ==> roles[i] == msgs[i].role
  {
    seq(|msgs|, i requires 0 <= i < |msgs| => msgs[i].role)
  }

  type Fetch = (int, int) -> Result<seq<Message>>

  /** The live source whose first `k` messages are described by the index. */
  function IndexedView(r: Rules, id: string, k: nat, msgs: seq<Message>, ps: Persisted, fetch: Fetch): Source
    requires k <= |msgs|
  {
    Source(id, |msgs|, seq(|msgs|, i requires 0 <= i < |msgs| => LiveTurn(r, msgs, k, i)), Roles(msgs),
           AuthoredTurns(r, msgs, k) + VisibleTurns(r, msgs, k, |msgs|),
           ps.revision, ps.revKnown, ps.digest, ps.epoch, fetch, None)
  }

  /** The source over the full in-memory snapshot. */
  function SnapshotView(r: Rules, id: string, msgs: seq<Message>, ps: Persisted, fetch: Fetch): Source {
    Source(id, |msgs|, seq(|msgs|, i requires 0 <= i < |msgs| => VisibleTurns(r, msgs, 0, i + 1)), Roles(msgs),
           VisibleTurns(r, msgs, 0, |msgs|), ps.revision, ps.revKnown, ps.digest, ps.epoch, fetch, None)
  }

  /** liveHistorySliceSource when a valid index covers a prefix of the session. */
  method IndexedSource(r: Rules, id: string, idx: Index, msgs: seq<Message>, ps: Persisted, fetch: Fetch)
    returns (src: Source)
    requires Describes(r, idx, msgs)
    ensures src == IndexedView(r, id, |idx.entries|, msgs, ps, fetch)
  {
    hide VisibleUser, StartsTurn;
    var k := |idx.entries|;
    var turns: seq<int>, roles: seq<Role> := [], [];
    for i := 0 to k
      invariant |turns| == i == |roles|
      invariant forall j :: 0 <= j < i ==> turns[j] == LiveTurn(r, msgs, k, j) && roles[j] == msgs[j].role
    {
      assert EntryFor(r, idx.entries[i], msgs, i);
      turns, roles := turns + [idx.entries[i].authoredTurn], roles + [idx.entries[i].role];
    }
    var turn := idx.authoredTurns;
    for i := k to |msgs|
      invariant |turns| == i == |roles| && turn == AuthoredTurns(r, msgs, k) + VisibleTurns(r, msgs, k, i)
      invariant forall j :: 0 <= j < i ==> turns[j] == LiveTurn(r, msgs, k, j) && roles[j] == msgs[j].role
    {
      if VisibleUser(r, msgs[i]) {
        turn := turn + 1;
      }
      turns, roles := turns + [turn], roles + [msgs[i].role];
    }
    assert roles == Roles(msgs);
    return Source(id, |msgs|, turns, roles, turn, ps.revision, ps.revKnown, ps.digest, ps.epoch, fetch, None);
  }

  /** newInMemoryHistorySliceSource. */
  method SnapshotSource(r: Rules, id: string, msgs: seq<Message>, ps: Persisted, fetch: Fetch) returns (src: Source)
    ensures src == SnapshotView(r, id, msgs, ps, fetch)
  {
    var turns: seq<int>, roles: seq<Role> := [], [];
    var turn := 0;
    for i := 0 to |msgs|
      invariant |turns| == i == |roles| && turn == VisibleTurns(r, msgs, 0, i)
      invariant forall j :: 0 <= j < i ==> turns[j] == VisibleTurns(r, msgs, 0, j + 1) && roles[j] == msgs[j].role
    {
      if VisibleUser(r, msgs[i]) {
        turn := turn + 1;
      }
      turns, roles := turns + [turn], roles + [msgs[i].role];
    }
    assert roles == Roles(msgs);
    return Source(id, |msgs|, turns, roles, turn, ps.revision, ps.revKnown, ps.digest, ps.epoch, fetch, None);
  }

  /** The two counts agree on the first `n` messages of the indexed prefix. */
  ghost predicate SameRule(r: Rules, msgs: seq<Message>, n: nat)
    requires n <= |msgs|
  {
    forall i :: 0 <= i < n ==> StartsTurn(r, msgs[i]) == VisibleUser(r, msgs[i])
  }

  lemma {:induction false} SameRuleSameTurns(r: Rules, msgs: seq<Message>, n: nat)
    requires n <= |msgs| && SameRule(r, msgs, n)
    ensures AuthoredTurns(r, msgs, n) == VisibleTurns(r, msgs, 0, n)
  {
    hide StartsTurn, VisibleUser;
    if n > 0 {
      SameRuleSameTurns(r, msgs, n - 1);
    }
  }

  lemma {:induction false} VisibleSplit(r: Rules, msgs: seq<Message>, k: nat, n: nat)
    requires k <= n <= |msgs|
    ensures VisibleTurns(r, msgs, 0, n) == VisibleTurns(r, msgs, 0, k) + VisibleTurns(r, msgs, k, n)
  {
    hide VisibleUser;
    if n > k {
      VisibleSplit(r, msgs, k, n - 1);
    }
  }

  /** The indexed source and the snapshot give every message the same turn exactly when, in
      the indexed prefix, a user message is authored if and only if it is displayed. */
  lemma {:induction false} SameTurnsIff(r: Rules, msgs: seq<Message>, k: nat)
    requires k <= |msgs|
    ensures (forall i :: 0 <= i < |msgs| ==> LiveTurn(r, msgs, k, i) == VisibleTurns(r, msgs, 0, i + 1)) <==>
              SameRule(r, msgs, k)
  {
    hide StartsTurn, VisibleUser;
    if SameRule(r, msgs, k) {
      forall i | 0 <= i < |msgs| ensures LiveTurn(r, msgs, k, i) == VisibleTurns(r, msgs, 0, i + 1) {
        if i < k {
          SameRuleSameTurns(r, msgs, i + 1);
        } else {
          SameRuleSameTurns(r, msgs, k);
          VisibleSplit(r, msgs, k, i + 1);
        }
      }
    }
    if forall i :: 0 <= i < |msgs| ==> LiveTurn(r, msgs, k, i) == VisibleTurns(r, msgs, 0, i + 1) {
      forall i | 0 <= i < k ensures StartsTurn(r, msgs[i]) == VisibleUser(r, msgs[i]) {
        assert LiveTurn(r, msgs, k, i) == VisibleTurns(r, msgs, 0, i + 1);
        if i > 0 {
          assert LiveTurn(r, msgs, k, i - 1) == VisibleTurns(r, msgs, 0, i);
        }
        assert AuthoredTurns(r, msgs, i) == VisibleTurns(r, msgs, 0, i);
      }
    }
  }

  /** Turns never decrease along a live source, which the turn search relies on. */
  lemma {:induction false} LiveTurnsSorted(r: Rules, msgs: seq<Message>, k: nat, i: nat, j: nat)
    requires k <= |msgs| && i <= j < |msgs|
    ensures LiveTurn(r, msgs, k, i) <= LiveTurn(r, msgs, k, j)
    decreases j
  {
    hide StartsTurn, VisibleUser;
    if i < j {
      LiveTurnsSorted(r, msgs, k, i, j - 1);
    }
  }

  // ---------------------------------------------------------------------------------
  // Equal sources serve equal pages
  // ---------------------------------------------------------------------------------

  /** Two sources that differ at most in how they read messages. */
  predicate SameView(a: Source, b: Source) {
    && a.sessionID == b.sessionID && a.total == b.total && a.turns == b.turns && a.totalTurns == b.totalTurns
    && a.revision == b.revision && a.revKnown == b.revKnown && a.digest == b.digest && a.epoch == b.epoch
    && a.windowBytes.None? && b.windowBytes.None?
  }

  lemma {:induction false} SameEntries(a: Source, b: Source, i: nat, rows: seq<Row>)
    requires SameView(a, b) && i < |a.turns|
    ensures EntriesOf(a, i, rows) == EntriesOf(b, i, rows)
  {
    hide RowRefs, CallsRefs, InlineRow, EntryIds.Format;
    forall k | 0 <= k < |rows| ensures EntriesOf(a, i, rows)[k] == EntriesOf(b, i, rows)[k] {
      var id := EntryIds.Format(a.sessionID, a.epoch, 'm', i, k);
      SameRowRefs(a, b, id, rows[k], |ROW_FIELDS|);
      SameCallsRefs(a, b, id, rows[k].toolCalls);
    }
  }

  lemma {:induction false} SameParts(s: Session, a: Source, b: Source, lo: nat, hi: nat)
    requires SameView(a, b) && lo <= hi <= |s.msgs| == |a.turns|
    ensures WindowParts(s, a, lo, hi) == WindowParts(s, b, lo, hi)
  {
    hide WindowRows, EntriesOf;
    forall k | 0 <= k < hi - lo ensures WindowParts(s, a, lo, hi)[k] == WindowParts(s, b, lo, hi)[k] {
      SameEntries(a, b, lo + k, WindowRows(s, lo, hi, lo + k));
    }
  }

  lemma {:induction false} SamePages(s: Session, a: Source, b: Source, req: Request)
    requires SameView(a, b) && a.total == |s.msgs| == |a.turns| && req.turns > 0
    ensures SlicePage(s, a, req) == SlicePage(s, b, req)
  {
    hide WindowParts, CutStart, CutEntries, TurnStart, StartTurn, EndTurn;
    var hi := UpperBound(a, req);
    if hi > 0 {
      SameParts(s, a, b, WindowStart(a, hi, req.turns), hi);
    }
  }

  /** For one persisted state, the indexed source and the snapshot source differ at most in how
      they read messages exactly when, in the indexed prefix, a user message is authored if and
      only if it is displayed; every request then gets the same page from both. */
  lemma {:induction false} LiveSourcesAgreeIff(s: Session, id: string, idx: Index, ps: Persisted, fetch: Fetch,
                                               other: Fetch)
    requires Describes(s.rules, idx, s.msgs)
    ensures var a, b := IndexedView(s.rules, id, |idx.entries|, s.msgs, ps, fetch),
              SnapshotView(s.rules, id, s.msgs, ps, other);
            && (SameView(a, b) <==> SameRule(s.rules, s.msgs, |idx.entries|))
            && (SameView(a, b) ==> forall req: Request :: req.turns > 0 ==>
                  SlicePage(s, a, req) == SlicePage(s, b, req))
  {
    hide SlicePage, LiveTurn, SameRule;
    var k := |idx.entries|;
    var a, b := IndexedView(s.rules, id, k, s.msgs, ps, fetch), SnapshotView(s.rules, id, s.msgs, ps, other);
    SameTurnsIff(s.rules, s.msgs, k);
    if SameRule(s.rules, s.msgs, k) {
      assert a.turns == b.turns;
      SameTotals(s.rules, s.msgs, k);
    }
    if SameView(a, b) {
      forall i | 0 <= i < |s.msgs| ensures LiveTurn(s.rules, s.msgs, k, i) == VisibleTurns(s.rules, s.msgs, 0, i + 1) {
        assert a.turns[i] == b.turns[i];
      }
      forall req: Request | req.turns > 0 ensures SlicePage(s, a, req) == SlicePage(s, b, req) {
        SamePages(s, a, b, req);
      }
    }
  }

  lemma {:induction false} SameTotals(r: Rules, msgs: seq<Message>, k: nat)
    requires k <= |msgs| && SameRule(r, msgs, k)
    ensures AuthoredTurns(r, msgs, k) + VisibleTurns(r, msgs, k, |msgs|) == VisibleTurns(r, msgs, 0, |msgs|)
  {
    SameRuleSameTurns(r, msgs, k);
    VisibleSplit(r, msgs, k, |msgs|);
  }
}
