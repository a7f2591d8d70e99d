/** A post takes a seat under one lock and appends under another; joins, leaves and posts run in between. */
module Posting {
  import opened Prelude
  import opened ChannelLog

  /** What a channel has broadcast, and the authors of the posts between their two halves. */
  datatype Room = Room(events: seq<Event>, pending: map<nat, string>)

  datatype Action =
    | Enter(agent: string)
    | Exit(agent: string)
    | Begin(request: nat, agent: string)
    | Finish(request: nat, message: Message)

  predicate HasSeat(events: seq<Event>, agent: string) {
    agent in MembersOf(events) || |MembersOf(events)| < MAX_MEMBERS
  }

  /** The effects of `Channel.Join`, `Leave`, `BeginPost` and `Append` on the events. */
  ghost predicate Step(s: Room, action: Action, t: Room) {
    match action
    case Enter(agent) => HasSeat(s.events, agent) && t == s.(events := Seated(s.events, agent))
    case Exit(agent) => t == s.(events := Unseated(s.events, agent))
    case Begin(id, agent) =>
      id !in s.pending && HasSeat(s.events, agent) && t == Room(Seated(s.events, agent), s.pending[id := agent])
    case Finish(id, m) =>
      id in s.pending && m.from == s.pending[id] && t == Room(s.events + [Posted(m)], s.pending - {id})
  }

  ghost predicate Run(ss: seq<Room>, actions: seq<Action>) {
    && |ss| == |actions| + 1 && ss[0].pending == map[]
    && forall i | 0 <= i < |actions| :: Step(ss[i], actions[i], ss[i + 1])
  }

  /** The agent left between the positions `i` and `j` and did not come back. */
  ghost predicate LeftBetween(events: seq<Event>, agent: string, i: nat, j: nat)
    requires i <= j <= |events|
  {
    exists k: nat | i <= k < j ::
      && events[k].Left? && events[k].agent == agent
      && forall n: nat | k < n < j :: !(events[n].Joined? && events[n].agent == agent)
  }

  lemma {:induction false} MemberIff(events: seq<Event>, agent: string, i: nat, j: nat)
    requires i <= j <= |events| && agent in MembersOf(events[..i])
    ensures agent in MembersOf(events[..j]) <==> !LeftBetween(events, agent, i, j)
  {
    if i < j {
      MemberIff(events, agent, i, j - 1);
      assert events[..j][..j - 1] == events[..j - 1];
      var e := events[j - 1];
      if LeftBetween(events, agent, i, j - 1) && !(e.Joined? && e.agent == agent) {
        var k: nat :| i <= k < j - 1 && events[k].Left? && events[k].agent == agent
          && forall n: nat | k < n < j - 1 :: !(events[n].Joined? && events[n].agent == agent);
        assert forall n: nat | k < n < j :: !(events[n].Joined? && events[n].agent == agent);
      }
    }
  }

  lemma SeatedIsMember(events: seq<Event>, agent: string)
    ensures agent in MembersOf(Seated(events, agent)) && events <= Seated(events, agent)
    ensures events <= Unseated(events, agent)
  {
  }

  /** Events are only ever added, and a pending post keeps its author. */
  lemma {:induction false} PendingStays(ss: seq<Room>, actions: seq<Action>, id: nat, i: nat, j: nat)
    requires Run(ss, actions) && i <= j < |ss|
    requires id in ss[i].pending
    requires forall k | i <= k < j :: !(actions[k].Finish? && actions[k].request == id)
    ensures ss[i].events <= ss[j].events
    ensures id in ss[j].pending && ss[j].pending[id] == ss[i].pending[id]
  {
    if i < j {
      PendingStays(ss, actions, id, i, j - 1);
      assert Step(ss[j - 1], actions[j - 1], ss[j]);
      hide MembersOf;
      assert ss[j - 1].events <= ss[j].events;
    }
  }

  /**
   * A post begins at `b` and its message lands at `f`. The author is a member then exactly when no
   * leave of the author came in between without a return.
   */
  lemma PostingMemberIff(ss: seq<Room>, actions: seq<Action>, b: nat, f: nat)
    requires Run(ss, actions) && b < f < |actions|
    requires actions[b].Begin? && actions[f].Finish? && actions[f].request == actions[b].request
    requires forall k | b < k < f :: !(actions[k].Finish? && actions[k].request == actions[b].request)
    ensures var agent, before := actions[b].agent, ss[f].events;
      && actions[f].message.from == agent && ss[f + 1].events == before + [Posted(actions[f].message)]
      && ss[b + 1].events <= before
      && (agent in MembersOf(before) <==> !LeftBetween(before, agent, |ss[b + 1].events|, |before|))
  {
    var agent, before := actions[b].agent, ss[f].events;
    assert Step(ss[b], actions[b], ss[b + 1]) && Step(ss[f], actions[f], ss[f + 1]);
    SeatedIsMember(ss[b].events, agent);
    PendingStays(ss, actions, actions[b].request, b + 1, f);
    var i := |ss[b + 1].events|;
    assert before[..i] == ss[b + 1].events && before[..|before|] == before;
    MemberIff(before, agent, i, |before|);
  }

  /** In particular, without a leave request of the author in between, posting implies membership. */
  lemma {:induction false} SeatIsKept(ss: seq<Room>, actions: seq<Action>, agent: string, i: nat, j: nat)
    requires Run(ss, actions) && i <= j < |ss| && agent in MembersOf(ss[i].events)
    requires forall k | i <= k < j :: actions[k] != Exit(agent)
    ensures agent in MembersOf(ss[j].events)
  {
    if i < j {
      SeatIsKept(ss, actions, agent, i, j - 1);
      hide MembersOf;
      StepKeepsSeat(ss[j - 1], actions[j - 1], ss[j], agent);
    }
  }

  lemma StepKeepsSeat(s: Room, action: Action, t: Room, agent: string)
    requires Step(s, action, t) && action != Exit(agent) && agent in MembersOf(s.events)
    ensures agent in MembersOf(t.events)
  {
    if t.events != s.events {
      var e := t.events[|s.events|];
      assert t.events == s.events + [e];
      hide Step;
      assert t.events[..|s.events|] == s.events;
    }
  }

  /** A run in which the author has left when the message lands. */
  lemma PostByNonMember(m: Message)
    ensures exists ss: seq<Room>, actions: seq<Action> | Run(ss, actions) && |actions| == 3 ::
      && actions == [Begin(0, m.from), Exit(m.from), Finish(0, m)] && ss[0].events == []
      && Posted(m) in ss[3].events && m.from !in MembersOf(ss[2].events)
  {
    var a := m.from;
    var e1, e2 := JoinThenLeave(a);
    hide MembersOf, Seated, Unseated;
    var r0, r1 := Room([], map[]), Room(e1, map[0 := a]);
    var r2, r3 := Room(e2, map[0 := a]), Room(e2 + [Posted(m)], map[]);
    var ss, actions := [r0, r1, r2, r3], [Begin(0, a), Exit(a), Finish(0, m)];
    assert Step(r0, actions[0], r1) && Step(r1, actions[1], r2) && Step(r2, actions[2], r3);
    assert Run(ss, actions);
    assert ss[3].events[|e2|] == Posted(m);
  }

  lemma JoinThenLeave(agent: string) returns (joined: seq<Event>, left: seq<Event>)
    ensures HasSeat([], agent) && joined == Seated([], agent) && left == Unseated(joined, agent)
    ensures agent !in MembersOf(left)
  {
    joined := [] + [Joined(agent, 1)];
    left := joined + [Left(agent, 0)];
    assert joined[..0] == [] && MembersOf(joined) == {agent};
    assert left[..1] == joined;
  }
}
