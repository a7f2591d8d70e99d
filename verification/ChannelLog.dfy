/** The retained window of a channel's messages and the meaning of its event stream. */
module ChannelLog {
  import opened Prelude
  import opened Text

  const MAX_MEMBERS := 32

  datatype Message = Message(number: nat, from: string, content: string, metaBytes: nat)

  /** What a message counts against the channel's byte budget. */
  function RetainedBytes(m: Message): nat { Utf8Len(m.content) + m.metaBytes }

  function Bytes(s: seq<Message>): nat {
    if s == [] then 0 else RetainedBytes(s[0]) + Bytes(s[1..])
  }

  // ---- the retained window ----------------------------------------------------------------

  predicate Overfull(count: nat, bytes: nat, limit: nat, budget: nat) {
    count > limit || (bytes > budget && count > 1)
  }

  /** The window satisfies the limits; a single message may exceed the byte budget. */
  predicate Fits(s: seq<Message>, limit: nat, budget: nat) { |s| <= limit && (Bytes(s) <= budget || |s| <= 1) }

  /** `window` is the longest suffix of `log` within the limits. */
  ghost predicate IsLongestFittingSuffix(window: seq<Message>, log: seq<Message>, limit: nat, budget: nat) {
    && |window| <= |log| && window == log[|log| - |window|..]
    && Fits(window, limit, budget)
    && forall k | 0 <= k < |log| - |window| :: !Fits(log[k..], limit, budget)
  }

  /** Drops the oldest messages until the rest fits. */
  function Evicted(s: seq<Message>, limit: nat, budget: nat): seq<Message> {
    if s != [] && Overfull(|s|, Bytes(s), limit, budget) then Evicted(s[1..], limit, budget) else s
  }

  lemma {:induction false} BytesConcat(a: seq<Message>, b: seq<Message>)
    ensures Bytes(a + b) == Bytes(a) + Bytes(b)
  {
    if a == [] {
      assert a + b == b;
    } else {
      assert (a + b)[1..] == a[1..] + b;
      BytesConcat(a[1..], b);
    }
  }

  lemma {:induction false} EvictedIsLongest(s: seq<Message>, limit: nat, budget: nat)
    ensures IsLongestFittingSuffix(Evicted(s, limit, budget), s, limit, budget)
  {
    if s != [] && Overfull(|s|, Bytes(s), limit, budget) {
      EvictedIsLongest(s[1..], limit, budget);
      var window := Evicted(s[1..], limit, budget);
      forall k | 0 <= k < |s| - |window|
        ensures !Fits(s[k..], limit, budget)
      {
        if k == 0 {
          assert s[0..] == s;
        } else {
          assert s[k..] == s[1..][k - 1..];
        }
      }
    }
  }

  /** What does not fit does not fit with another message behind it either. */
  lemma AppendStaysOverfull(s: seq<Message>, m: Message, limit: nat, budget: nat)
    requires !Fits(s, limit, budget)
    ensures !Fits(s + [m], limit, budget)
  {
    BytesConcat(s, [m]);
  }

  function Newest(s: seq<Message>): Option<Message> { if s == [] then None else Some(s[|s| - 1]) }

  /** Evicting from the old window gives the same result as evicting from the whole log. */
  lemma PostKeepsLongest(window: seq<Message>, log: seq<Message>, m: Message, limit: nat, budget: nat)
    requires IsLongestFittingSuffix(window, log, limit, budget)
    ensures IsLongestFittingSuffix(Evicted(window + [m], limit, budget), log + [m], limit, budget)
    ensures limit >= 1 ==> Newest(Evicted(window + [m], limit, budget)) == Some(m)
  {
    var s, longer := window + [m], log + [m];
    var r := Evicted(s, limit, budget);
    EvictedIsLongest(s, limit, budget);
    var dropped := |log| - |window|;
    assert longer[dropped..] == s;
    forall k | 0 <= k < |longer| - |r|
      ensures !Fits(longer[k..], limit, budget)
    {
      if k < dropped {
        assert longer[k..] == log[k..] + [m];
        AppendStaysOverfull(log[k..], m, limit, budget);
      } else {
        assert longer[k..] == s[k - dropped..];
      }
    }
    assert s[|s| - 1..] == [m];
    assert limit >= 1 ==> Fits([m], limit, budget);
  }

  /** The window after posting all of `log` to a fresh channel. */
  function WindowAfter(log: seq<Message>, limit: nat, budget: nat): seq<Message> {
    if log == [] then []
    else Evicted(WindowAfter(log[..|log| - 1], limit, budget) + [log[|log| - 1]], limit, budget)
  }

  /** After any posts, the window is the longest suffix of the full log that fits, and holds the newest message. */
  lemma {:induction false} WindowIsLongestSuffix(log: seq<Message>, limit: nat, budget: nat)
    ensures IsLongestFittingSuffix(WindowAfter(log, limit, budget), log, limit, budget)
    ensures limit >= 1 ==> Newest(WindowAfter(log, limit, budget)) == Newest(log)
  {
    if log != [] {
      var before, m := log[..|log| - 1], log[|log| - 1];
      WindowIsLongestSuffix(before, limit, budget);
      PostKeepsLongest(WindowAfter(before, limit, budget), before, m, limit, budget);
      assert before + [m] == log;
    }
  }

  // ---- events ---------------------------------------------------------------------------------

  datatype Event =
    | Joined(agent: string, memberCount: nat)
    | Left(agent: string, memberCount: nat)
    | Posted(message: Message)

  /** The members that the presence events add up to. */
  function MembersOf(events: seq<Event>): set<string> {
    if events == [] then {}
    else
      var before := MembersOf(events[..|events| - 1]);
      match events[|events| - 1]
      case Joined(agent, _) => before + {agent}
      case Left(agent, _) => before - {agent}
      case Posted(_) => before
  }

  /** The stream once the agent has a seat: a newcomer is announced. */
  function Seated(events: seq<Event>, agent: string): seq<Event> {
    if agent in MembersOf(events) then events else events + [Joined(agent, |MembersOf(events)| + 1)]
  }

  /** The stream once the agent has no seat: a member is announced as leaving. */
  function Unseated(events: seq<Event>, agent: string): seq<Event> {
    if agent in MembersOf(events) then events + [Left(agent, |MembersOf(events)| - 1)] else events
  }

  /** The event changes the membership it follows, and states the size, which the seats bound. */
  ghost predicate TruthfulAfter(before: seq<Event>, e: Event) {
    match e
    case Joined(agent, n) => agent !in MembersOf(before) && n == |MembersOf(before + [e])| <= MAX_MEMBERS
    case Left(agent, n) => agent in MembersOf(before) && n == |MembersOf(before + [e])| <= MAX_MEMBERS
    case Posted(_) => true
  }

  ghost predicate Truthful(events: seq<Event>) {
    forall i | 0 <= i < |events| :: TruthfulAfter(events[..i], events[i])
  }

  /** A stream stays truthful exactly when the new event matches the members so far and counts them. */
  lemma TruthfulAppend(events: seq<Event>, e: Event)
    ensures Truthful(events + [e]) <==> Truthful(events) && TruthfulAfter(events, e)
  {
    hide TruthfulAfter;
    var longer := events + [e];
    assert longer[..|events|] == events && longer[|events|] == e;
    assert forall i | 0 <= i < |events| :: longer[..i] == events[..i] && longer[i] == events[i];
    if Truthful(longer) {
      forall i | 0 <= i < |events|
        ensures TruthfulAfter(events[..i], events[i])
      {
        assert TruthfulAfter(longer[..i], longer[i]);
      }
      assert TruthfulAfter(longer[..|events|], longer[|events|]);
    }
  }

  /** A channel never has more than 32 members. */
  lemma {:induction false} SeatsAreBounded(events: seq<Event>)
    requires Truthful(events)
    ensures |MembersOf(events)| <= 32
  {
    if events != [] {
      var n := |events| - 1;
      assert events == events[..n] + [events[n]];
      TruthfulAppend(events[..n], events[n]);
      SeatsAreBounded(events[..n]);
    }
  }

  lemma {:induction false} MemberUntilLeft(events: seq<Event>, i: nat, j: nat, agent: string)
    requires i <= j <= |events| && agent in MembersOf(events[..i])
    requires forall k | i <= k < j :: !(events[k].Left? && events[k].agent == agent)
    ensures agent in MembersOf(events[..j])
  {
    if i < j {
      MemberUntilLeft(events, i, j - 1, agent);
      assert events[..j][..j - 1] == events[..j - 1];
    }
  }

  lemma {:induction false} AbsentUntilJoined(events: seq<Event>, i: nat, j: nat, agent: string)
    requires i <= j <= |events| && agent !in MembersOf(events[..i])
    requires forall k | i <= k < j :: !(events[k].Joined? && events[k].agent == agent)
    ensures agent !in MembersOf(events[..j])
  {
    if i < j {
      AbsentUntilJoined(events, i, j - 1, agent);
      assert events[..j][..j - 1] == events[..j - 1];
    }
  }

  /** For each agent, joining and leaving alternate, and joining comes first. */
  lemma PresenceAlternates(events: seq<Event>, i: nat, j: nat)
    requires Truthful(events) && i < j < |events|
    ensures events[i].Joined? && events[j].Joined? && events[i].agent == events[j].agent ==>
        exists k | i < k < j :: events[k].Left? && events[k].agent == events[j].agent
    ensures events[i].Left? && events[j].Left? && events[i].agent == events[j].agent ==>
        exists k | i < k < j :: events[k].Joined? && events[k].agent == events[j].agent
    ensures events[j].Left? ==>
        exists k | 0 <= k < j :: events[k].Joined? && events[k].agent == events[j].agent
  {
    assert events[..i + 1][..i] == events[..i];
    assert TruthfulAfter(events[..i], events[i]) && TruthfulAfter(events[..j], events[j]);
    if events[i].Joined? && events[j].Joined? && events[i].agent == events[j].agent
      && !exists k | i < k < j :: events[k].Left? && events[k].agent == events[j].agent
    {
      MemberUntilLeft(events, i + 1, j, events[j].agent);
    }
    if events[i].Left? && events[j].Left? && events[i].agent == events[j].agent
      && !exists k | i < k < j :: events[k].Joined? && events[k].agent == events[j].agent
    {
      AbsentUntilJoined(events, i + 1, j, events[j].agent);
    }
    if events[j].Left? && !exists k | 0 <= k < j :: events[k].Joined? && events[k].agent == events[j].agent {
      assert events[..0] == [];
      AbsentUntilJoined(events, 0, j, events[j].agent);
    }
  }
}
