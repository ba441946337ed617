/** What the turns of a live source and the overlaid times are, as counts of messages. */
module SourceMeaning {
  import opened Prelude
  import opened HistoryModel
  import opened HistorySource
  import opened LiveSource
  import opened PageSpec
  import ConvertMeaning
  import Times

  // ---------------------------------------------------------------------------------
  // Counting messages
  // ---------------------------------------------------------------------------------

  ghost predicate IsUser(m: Message) {
    m.role == User
  }

  /** A user message that the user wrote as a turn of its own. */
  ghost predicate IsOwnTurn(r: Rules, m: Message) {
    m.role == User && ConvertMeaning.OwnTurn(r, UserText(r, m))
  }

  /** A user message that is displayed: no steer, and not put there by the host. */
  ghost predicate IsDisplayed(r: Rules, m: Message) {
    m.role == User && r.steerText(UserText(r, m)) == None && !ConvertMeaning.FromHost(r, DisplayContent(r, m))
  }

  ghost function Users(msgs: seq<Message>, to: nat): set<int>
    requires to <= |msgs|
  {
    set i | 0 <= i < to && IsUser(msgs[i])
  }

  ghost function OwnTurns(r: Rules, msgs: seq<Message>, to: nat): set<int>
    requires to <= |msgs|
  {
    set i | 0 <= i < to && IsOwnTurn(r, msgs[i])
  }

  ghost function Displays(r: Rules, msgs: seq<Message>, from: nat, to: nat): set<int>
    requires from <= to <= |msgs|
  {
    set i | from <= i < to && IsDisplayed(r, msgs[i])
  }

  lemma {:induction false} OneMoreUser(msgs: seq<Message>, to: nat)
    requires to < |msgs|
    ensures |Users(msgs, to + 1)| == |Users(msgs, to)| + if IsUser(msgs[to]) then 1 else 0
  {
    hide IsUser;
    assert Users(msgs, to + 1) == if IsUser(msgs[to]) then Users(msgs, to) + {to} else Users(msgs, to);
  }

  lemma {:induction false} OneMoreTurn(r: Rules, msgs: seq<Message>, to: nat)
    requires to < |msgs|
    ensures |OwnTurns(r, msgs, to + 1)| == |OwnTurns(r, msgs, to)| + if IsOwnTurn(r, msgs[to]) then 1 else 0
  {
    hide IsOwnTurn;
    var was := OwnTurns(r, msgs, to);
    assert OwnTurns(r, msgs, to + 1) == if IsOwnTurn(r, msgs[to]) then was + {to} else was;
  }

  lemma {:induction false} OneMoreShown(r: Rules, msgs: seq<Message>, from: nat, to: nat)
    requires from <= to < |msgs|
    ensures |Displays(r, msgs, from, to + 1)| ==
            |Displays(r, msgs, from, to)| + if IsDisplayed(r, msgs[to]) then 1 else 0
  {
    hide IsDisplayed;
    var was := Displays(r, msgs, from, to);
    assert Displays(r, msgs, from, to + 1) == if IsDisplayed(r, msgs[to]) then was + {to} else was;
  }

  lemma {:induction false} NoneYet(r: Rules, msgs: seq<Message>, from: nat)
    requires from <= |msgs|
    ensures |Users(msgs, 0)| == |OwnTurns(r, msgs, 0)| == |Displays(r, msgs, from, from)| == 0
  {
    assert Users(msgs, 0) == {} && OwnTurns(r, msgs, 0) == {} && Displays(r, msgs, from, from) == {};
  }

  // ---------------------------------------------------------------------------------
  // Turns
  // ---------------------------------------------------------------------------------

  lemma {:induction false} KindsAre(r: Rules, m: Message)
    ensures StartsTurn(r, m) <==> IsOwnTurn(r, m)
    ensures VisibleUser(r, m) <==> IsDisplayed(r, m)
  {
    hide UserText, DisplayContent, SyntheticMessage, AuthoredText, ConvertMeaning.FromHost, ConvertMeaning.OwnTurn;
    ConvertMeaning.KindsMean(r, UserText(r, m));
    ConvertMeaning.KindsMean(r, DisplayContent(r, m));
  }

  lemma {:induction false} AuthoredCount(r: Rules, msgs: seq<Message>, n: nat)
    requires n <= |msgs|
    ensures AuthoredTurns(r, msgs, n) == |OwnTurns(r, msgs, n)|
  {
    hide StartsTurn, OwnTurns, IsOwnTurn;
    if n == 0 {
      NoneYet(r, msgs, 0);
    } else {
      AuthoredCount(r, msgs, n - 1);
      KindsAre(r, msgs[n - 1]);
      OneMoreTurn(r, msgs, n - 1);
    }
  }

  lemma {:induction false} VisibleCount(r: Rules, msgs: seq<Message>, from: nat, n: nat)
    requires from <= n <= |msgs|
    ensures VisibleTurns(r, msgs, from, n) == |Displays(r, msgs, from, n)|
    decreases n
  {
    hide VisibleUser, Displays, IsDisplayed;
    if n == from {
      NoneYet(r, msgs, from);
    } else {
      VisibleCount(r, msgs, from, n - 1);
      KindsAre(r, msgs[n - 1]);
      OneMoreShown(r, msgs, from, n - 1);
    }
  }

  /** A valid index holds, for every message it covers, the role and the number of turns of the user up
      to and including it. */
  lemma {:induction false} IndexTells(r: Rules, idx: Index, msgs: seq<Message>, i: nat)
    requires Describes(r, idx, msgs) && i < |idx.entries|
    ensures idx.entries[i].role == msgs[i].role && idx.entries[i].authoredTurn == |OwnTurns(r, msgs, i + 1)|
    ensures idx.authoredTurns == |OwnTurns(r, msgs, |idx.entries|)|
  {
    hide OwnTurns, StartsTurn;
    assert EntryFor(r, idx.entries[i], msgs, i);
    AuthoredCount(r, msgs, i + 1);
    AuthoredCount(r, msgs, |idx.entries|);
  }

  /** The source names the session and its persisted state, and the role of every message. */
  ghost predicate NamesSession(src: Source, id: string, msgs: seq<Message>, ps: Persisted) {
    && src.sessionID == id && src.total == |msgs| == |src.turns| == |src.roles|
    && src.revision == ps.revision && src.revKnown == ps.revKnown && src.digest == ps.digest && src.epoch == ps.epoch
    && src.windowBytes == None && forall i :: 0 <= i < |msgs| ==> src.roles[i] == msgs[i].role
  }

  /** The turn of a message of a live source is the number of user turns up to it: in the part that the
      index covers those the user wrote, behind it those that are displayed. */
  lemma {:induction false} LiveTurnsCount(r: Rules, id: string, k: nat, msgs: seq<Message>, ps: Persisted, fetch: Fetch,
                                          i: nat)
    requires k <= |msgs| && i < |msgs|
    ensures var live, snapshot := IndexedView(r, id, k, msgs, ps, fetch), SnapshotView(r, id, msgs, ps, fetch);
            && NamesSession(live, id, msgs, ps) && NamesSession(snapshot, id, msgs, ps)
            && live.turns[i] == (if i < k then |OwnTurns(r, msgs, i + 1)|
                                 else |OwnTurns(r, msgs, k)| + |Displays(r, msgs, k, i + 1)|)
            && live.totalTurns == |OwnTurns(r, msgs, k)| + |Displays(r, msgs, k, |msgs|)|
            && snapshot.turns[i] == |Displays(r, msgs, 0, i + 1)|
            && snapshot.totalTurns == |Displays(r, msgs, 0, |msgs|)|
  {
    hide AuthoredTurns, VisibleTurns, OwnTurns, Displays;
    AuthoredCount(r, msgs, i + 1);
    AuthoredCount(r, msgs, k);
    VisibleCount(r, msgs, 0, i + 1);
    VisibleCount(r, msgs, 0, |msgs|);
    VisibleCount(r, msgs, k, |msgs|);
    if i >= k {
      VisibleCount(r, msgs, k, i + 1);
    }
  }

  // ---------------------------------------------------------------------------------
  // Times
  // ---------------------------------------------------------------------------------

  lemma {:induction false} UserCount(r: Rules, msgs: seq<Message>, n: nat)
    requires n <= |msgs|
    ensures Times.Users(msgs, n) == |Users(msgs, n)|
  {
    hide Users;
    if n == 0 {
      NoneYet(r, msgs, 0);
    } else {
      UserCount(r, msgs, n - 1);
      OneMoreUser(msgs, n - 1);
    }
  }

  /** Some turn of the user among the messages has no time of its own. */
  ghost predicate AsksForTimes(r: Rules, msgs: seq<Message>) {
    exists i :: 0 <= i < |msgs| && IsOwnTurn(r, msgs[i]) && msgs[i].createdAt <= 0
  }

  /** When a turn of the user has no time, every user message without one gets the time recorded for its
      ordinal among the user messages; nothing else changes, and nothing at all otherwise. */
  lemma {:induction false} OverlayTells(r: Rules, msgs: seq<Message>, times: Times.UserTimes, offset: nat, i: nat)
    requires i < |msgs|
    ensures var out := Times.Overlay(r, msgs, times, offset);
            var ordinal := offset + |Users(msgs, i)|;
            out[i] ==
            if && times.Times? && AsksForTimes(r, msgs) && msgs[i].role == User && msgs[i].createdAt <= 0
               && ordinal < |times.at| && times.at[ordinal].Some?
            then msgs[i].(createdAt := times.at[ordinal].value) else msgs[i]
  {
    hide Users, IsOwnTurn, Times.Users, Times.Untimed;
    UserCount(r, msgs, i);
    AsksIff(r, msgs);
  }

  lemma {:induction false} AsksIff(r: Rules, msgs: seq<Message>)
    ensures AsksForTimes(r, msgs) <==> Times.NeedsTimes(r, msgs)
  {
    hide IsOwnTurn, Authored;
    forall i | 0 <= i < |msgs| ensures Times.Untimed(r, msgs[i]) <==> IsOwnTurn(r, msgs[i]) && msgs[i].createdAt <= 0 {
      KindsAre(r, msgs[i]);
    }
  }

  /** A window overlays the times that the whole transcript does, provided it asks for times itself. */
  lemma {:induction false} WindowTells(r: Rules, msgs: seq<Message>, times: Times.UserTimes, lo: nat, hi: nat, i: nat)
    requires lo <= i < hi <= |msgs|
    ensures var ordinal := |Users(msgs, i)|;
            Times.WindowOverlay(r, msgs, times, lo, hi)[i - lo] ==
            if && times.Times? && AsksForTimes(r, msgs[lo..hi]) && msgs[i].role == User && msgs[i].createdAt <= 0
               && ordinal < |times.at| && times.at[ordinal].Some?
            then msgs[i].(createdAt := times.at[ordinal].value) else msgs[i]
  {
    hide Users, IsOwnTurn, Times.Users, AsksForTimes;
    OverlayTells(r, msgs[lo..hi], times, Times.Users(msgs, lo), i - lo);
    Times.UsersInWindow(msgs, lo, hi, i - lo);
    UserCount(r, msgs[lo..hi], i - lo);
    UserCount(r, msgs, i);
  }
}
