/** One TCP subscription: replay up to the high-water mark, then live events or lag notices. */
module Subscription {
  import opened Prelude
  import opened ChannelLog
  import opened Channels

  /** Events the broadcast queue retains for a slow receiver. */
  const CAPACITY := 256

  /** The parts of a channel a subscription can see. */
  datatype Chan = Chan(messages: seq<Message>, nextNumber: nat, events: seq<Event>)

  /** The lines written to the client. */
  datatype Line =
    | Replayed(message: Message)
    | Acknowledged
    | Live(event: Event)
    | Lagged(dropped: nat)

  /** `subscribe` captured the queue position `start` and the high-water mark; nothing was read yet. */
  datatype Phase = Subscribed | Streaming(cursor: nat)

  datatype Sub = Sub(since: nat, start: nat, highWater: nat, phase: Phase, lines: seq<Line>)

  datatype World = World(chan: Chan, sub: Sub)

  // ---- steps -----------------------------------------------------------------------------------

  /** A join, a leave or a post by anyone; a post also evicts. */
  ghost predicate ChannelStep(c: Chan, d: Chan) {
    exists e ::
      && d.events == c.events + [e]
      && match e
         case Posted(m) =>
           && m.number == c.nextNumber && d.nextNumber == c.nextNumber + 1
           && exists k | 0 <= k <= |c.messages| + 1 :: d.messages == (c.messages + [m])[k..]
         case _ => d.messages == c.messages && d.nextNumber == c.nextNumber
  }

  /** The state `subscribe` returns, read under one lock. */
  function Subscribe(c: Chan, since: nat): World {
    World(c, Sub(since, |c.events|, SaturatingSub(c.nextNumber, 1), Subscribed, []))
  }

  function ReplayLines(s: seq<Message>): (r: seq<Line>)
    ensures |r| == |s| && forall i | 0 <= i < |s| :: r[i] == Replayed(s[i])
  {
    seq(|s|, i requires 0 <= i < |s| => Replayed(s[i]))
  }

  function UpTo(s: seq<Message>, highWater: nat): seq<Message> {
    if s == [] then [] else (if s[0].number <= highWater then [s[0]] else []) + UpTo(s[1..], highWater)
  }

  /** The history read, the replayed lines and the acknowledgement. */
  function Replay(w: World): World {
    var replay := UpTo(After(w.chan.messages, w.sub.since), w.sub.highWater);
    w.(sub := w.sub.(phase := Streaming(w.sub.start), lines := ReplayLines(replay) + [Acknowledged]))
  }

  /** One `recv`: the next event, or a notice that the oldest ones were overwritten. */
  function Receive(w: World): World
    requires w.sub.phase.Streaming? && w.sub.phase.cursor < |w.chan.events|
  {
    var cursor, n := w.sub.phase.cursor, |w.chan.events|;
    if n - cursor > CAPACITY then
      var dropped := n - CAPACITY - cursor;
      w.(sub := w.sub.(phase := Streaming(cursor + dropped), lines := w.sub.lines + [Lagged(dropped)]))
    else
      w.(sub := w.sub.(phase := Streaming(cursor + 1), lines := w.sub.lines + [Live(w.chan.events[cursor])]))
  }

  ghost predicate Step(w: World, x: World) {
    || (ChannelStep(w.chan, x.chan) && x.sub == w.sub)
    || (w.sub.phase.Subscribed? && x == Replay(w))
    || (w.sub.phase.Streaming? && w.sub.phase.cursor < |w.chan.events| && x == Receive(w))
  }

  // ---- what the client can rely on ----------------------------------------------------------------

  function NumberOf(l: Line): Option<nat> {
    match l
    case Replayed(m) => Some(m.number)
    case Live(e) => if e.Posted? then Some(e.message.number) else None
    case _ => None
  }

  /** Message numbers strictly increase along the lines. */
  ghost predicate Increasing(lines: seq<Line>) {
    forall i, j | 0 <= i < j < |lines| && NumberOf(lines[i]).Some? && NumberOf(lines[j]).Some? ::
      NumberOf(lines[i]).value < NumberOf(lines[j]).value
  }

  /** The lines account for exactly the events from `from` to `to`: each is shown, in order, or counted as dropped. */
  ghost predicate Accounts(lines: seq<Line>, events: seq<Event>, from: nat, to: nat) {
    if lines == [] then from == to
    else
      match lines[|lines| - 1]
      case Live(e) => 0 < to <= |events| && e == events[to - 1] && Accounts(lines[..|lines| - 1], events, from, to - 1)
      case Lagged(n) => 0 < n <= to && Accounts(lines[..|lines| - 1], events, from, to - n)
      case _ => false
  }

  ghost predicate ChanInv(c: Chan, base: nat) {
    && 1 <= c.nextNumber
    && Numbered(c.messages)
    && (forall m | m in c.messages :: m.number < c.nextNumber)
    && (forall i, j | 0 <= i < j < |c.events| && c.events[i].Posted? && c.events[j].Posted? ::
          c.events[i].message.number < c.events[j].message.number)
    && (forall i | 0 <= i < |c.events| && c.events[i].Posted? :: c.events[i].message.number < c.nextNumber)
    // a retained message newer than the restored ones was broadcast
    && (forall m | m in c.messages && m.number > base :: Posted(m) in c.events)
  }

  /** The lines are the replayed messages and the acknowledgement, followed by lines that account for the events. */
  ghost predicate SubInv(w: World, replayed: nat) {
    var s, events := w.sub, w.chan.events;
    && s.start <= |events|
    && (forall i | 0 <= i < s.start && events[i].Posted? :: events[i].message.number <= s.highWater)
    && (forall i | s.start <= i < |events| && events[i].Posted? :: events[i].message.number > s.highWater)
    && match s.phase
       case Subscribed => s.lines == [] && replayed == 0
       case Streaming(cursor) =>
         && s.start <= cursor <= |events|
         && Layout(s.lines, replayed, s.since, s.highWater)
         && LiveWithin(s.lines, events, s.start, cursor)
         && Accounts(s.lines[replayed + 1..], events, s.start, cursor)
         && Increasing(s.lines)
  }

  ghost predicate Layout(lines: seq<Line>, replayed: nat, since: nat, highWater: nat) {
    && replayed < |lines| && lines[replayed] == Acknowledged
    && (forall i | 0 <= i < replayed :: lines[i].Replayed? && since < lines[i].message.number <= highWater)
    && (forall i | replayed < i < |lines| :: lines[i].Lagged? || lines[i].Live?)
  }

  ghost predicate LiveWithin(lines: seq<Line>, events: seq<Event>, from: nat, to: nat) {
    forall i | 0 <= i < |lines| && lines[i].Live? && lines[i].event.Posted? :: Within(lines[i].event, events, from, to)
  }

  /** The event is one of those from `from` to `to`. */
  ghost predicate Within(e: Event, events: seq<Event>, from: nat, to: nat) {
    exists i | from <= i < to && i < |events| :: events[i] == e
  }

  lemma {:induction false} AccountsExtends(lines: seq<Line>, events: seq<Event>, e: Event, from: nat, to: nat)
    requires Accounts(lines, events, from, to)
    ensures Accounts(lines, events + [e], from, to)
  {
    if lines != [] {
      match lines[|lines| - 1]
      case Live(_) => AccountsExtends(lines[..|lines| - 1], events, e, from, to - 1);
      case Lagged(n) => AccountsExtends(lines[..|lines| - 1], events, e, from, to - n);
      case _ =>
    }
  }

  lemma LiveWithinExtends(lines: seq<Line>, events: seq<Event>, e: Event, from: nat, to: nat)
    requires LiveWithin(lines, events, from, to)
    ensures LiveWithin(lines, events + [e], from, to)
  {
    forall i | 0 <= i < |lines| && lines[i].Live? && lines[i].event.Posted?
      ensures Within(lines[i].event, events + [e], from, to)
    {
      var k :| from <= k < to && k < |events| && events[k] == lines[i].event;
      assert (events + [e])[k] == lines[i].event;
    }
  }

  lemma ChannelStepKeeps(w: World, x: World, base: nat, replayed: nat)
    requires ChanInv(w.chan, base) && SubInv(w, replayed)
    requires ChannelStep(w.chan, x.chan) && x.sub == w.sub
    requires w.sub.highWater < w.chan.nextNumber
    ensures ChanInv(x.chan, base) && SubInv(x, replayed)
    ensures x.sub.highWater < x.chan.nextNumber
  {
    var e :| x.chan.events == w.chan.events + [e]
      && match e
         case Posted(m) =>
           && m.number == w.chan.nextNumber && x.chan.nextNumber == w.chan.nextNumber + 1
           && exists k | 0 <= k <= |w.chan.messages| + 1 :: x.chan.messages == (w.chan.messages + [m])[k..]
         case _ => x.chan.messages == w.chan.messages && x.chan.nextNumber == w.chan.nextNumber;
    ChanInvExtends(w.chan, x.chan, e, base);
    hide Accounts, Increasing, Layout;
    if w.sub.phase.Streaming? {
      AccountsExtends(w.sub.lines[replayed + 1..], w.chan.events, e, w.sub.start, w.sub.phase.cursor);
      LiveWithinExtends(w.sub.lines, w.chan.events, e, w.sub.start, w.sub.phase.cursor);
    }
  }

  /** The messages after a post are a suffix of the old ones and the new one. */
  lemma WindowStep(before: seq<Message>, m: Message, k: nat, after: seq<Message>, number: nat)
    requires k <= |before| + 1 && after == (before + [m])[k..]
    requires Numbered(before) && (forall x | x in before :: x.number < number) && m.number == number
    ensures Numbered(after)
    ensures forall x | x in after :: x == m || x in before
  {
    NumberedAppend(before, m);
    var longer := before + [m];
    assert forall i | 0 <= i < |after| :: after[i] == longer[k + i];
    assert forall x | x in longer :: x == m || x in before;
  }

  lemma ChanInvExtends(c: Chan, d: Chan, e: Event, base: nat)
    requires ChanInv(c, base) && d.events == c.events + [e]
    requires match e
      case Posted(m) =>
        && m.number == c.nextNumber && d.nextNumber == c.nextNumber + 1
        && exists k | 0 <= k <= |c.messages| + 1 :: d.messages == (c.messages + [m])[k..]
      case _ => d.messages == c.messages && d.nextNumber == c.nextNumber
    ensures ChanInv(d, base)
  {
    hide Numbered;
    if e.Posted? {
      var k :| 0 <= k <= |c.messages| + 1 && d.messages == (c.messages + [e.message])[k..];
      WindowStep(c.messages, e.message, k, d.messages, c.nextNumber);
    }
    assert forall x | x in c.events :: x in d.events;
    assert e in d.events;
    forall m | m in d.messages && m.number > base
      ensures Posted(m) in d.events
    {
      if m in c.messages {
        assert Posted(m) in c.events;
      } else {
        assert e == Posted(m);
      }
    }
  }

  lemma {:induction false} AfterLaws(s: seq<Message>, since: nat)
    requires Numbered(s)
    ensures Numbered(After(s, since))
    ensures forall m :: m in After(s, since) <==> m in s && since < m.number
  {
    if s != [] {
      assert s == [s[0]] + s[1..];
      AfterLaws(s[1..], since);
    }
  }

  lemma {:induction false} UpToLaws(s: seq<Message>, highWater: nat)
    requires Numbered(s)
    ensures Numbered(UpTo(s, highWater))
    ensures forall m :: m in UpTo(s, highWater) <==> m in s && m.number <= highWater
  {
    if s != [] {
      assert s == [s[0]] + s[1..];
      UpToLaws(s[1..], highWater);
    }
  }

  lemma ReplayKeeps(w: World, base: nat)
    requires ChanInv(w.chan, base) && SubInv(w, 0) && w.sub.phase.Subscribed?
    ensures SubInv(Replay(w), |Replay(w).sub.lines| - 1)
    ensures forall m | m in w.chan.messages && w.sub.since < m.number <= w.sub.highWater ::
        Replayed(m) in Replay(w).sub.lines
  {
    hide After, UpTo;
    var requested := After(w.chan.messages, w.sub.since);
    AfterLaws(w.chan.messages, w.sub.since);
    UpToLaws(requested, w.sub.highWater);
    ReplayLayout(UpTo(requested, w.sub.highWater), w.sub.since, w.sub.highWater, w.chan.events, w.sub.start);
  }

  lemma ReplayLayout(replay: seq<Message>, since: nat, highWater: nat, events: seq<Event>, start: nat)
    requires Numbered(replay) && forall m | m in replay :: since < m.number <= highWater
    ensures var lines := ReplayLines(replay) + [Acknowledged];
      && Layout(lines, |replay|, since, highWater)
      && LiveWithin(lines, events, start, start)
      && Accounts(lines[|replay| + 1..], events, start, start)
      && Increasing(lines)
      && forall m | m in replay :: Replayed(m) in lines
  {
    var lines := ReplayLines(replay) + [Acknowledged];
    forall i | 0 <= i < |replay|
      ensures lines[i] == Replayed(replay[i]) && replay[i] in replay
    {
    }
    forall m | m in replay
      ensures Replayed(m) in lines
    {
      var i :| 0 <= i < |replay| && replay[i] == m;
      assert lines[i] == Replayed(m);
    }
  }

  lemma AccountsStep(lines: seq<Line>, events: seq<Event>, from: nat, cursor: nat, dropped: nat)
    requires Accounts(lines, events, from, cursor) && cursor < |events|
    ensures Accounts(lines + [Live(events[cursor])], events, from, cursor + 1)
    ensures dropped > 0 ==> Accounts(lines + [Lagged(dropped)], events, from, cursor + dropped)
  {
    assert (lines + [Live(events[cursor])])[..|lines|] == lines;
    assert (lines + [Lagged(dropped)])[..|lines|] == lines;
  }

  lemma LiveWithinStep(lines: seq<Line>, line: Line, events: seq<Event>, from: nat, cursor: nat, to: nat)
    requires LiveWithin(lines, events, from, cursor) && from <= cursor < |events| && cursor < to
    requires line.Lagged? || line == Live(events[cursor])
    ensures LiveWithin(lines + [line], events, from, to)
  {
    var longer := lines + [line];
    forall i | 0 <= i < |longer| && longer[i].Live? && longer[i].event.Posted?
      ensures Within(longer[i].event, events, from, to)
    {
      if i < |lines| {
        assert Within(lines[i].event, events, from, cursor);
      } else {
        assert events[cursor] == longer[i].event;
      }
    }
  }

  lemma ReceiveKeeps(w: World, base: nat, replayed: nat)
    requires ChanInv(w.chan, base) && SubInv(w, replayed)
    requires w.sub.phase.Streaming? && w.sub.phase.cursor < |w.chan.events|
    ensures SubInv(Receive(w), replayed)
  {
    hide LiveWithin, Accounts, Increasing;
    var x := Receive(w);
    var cursor, line := w.sub.phase.cursor, x.sub.lines[|w.sub.lines|];
    assert x.sub.lines == w.sub.lines + [line];
    assert x.sub.lines[replayed + 1..] == w.sub.lines[replayed + 1..] + [line];
    AccountsStep(
      w.sub.lines[replayed + 1..], w.chan.events, w.sub.start, cursor, if line.Lagged? then line.dropped else 0);
    LiveWithinStep(w.sub.lines, line, w.chan.events, w.sub.start, cursor, x.sub.phase.cursor);
    NewLineIncreases(w, base, replayed, line);
  }

  /** A live message is newer than everything shown before it. */
  lemma NewLineIncreases(w: World, base: nat, replayed: nat, line: Line)
    requires ChanInv(w.chan, base) && SubInv(w, replayed)
    requires w.sub.phase.Streaming? && w.sub.phase.cursor < |w.chan.events|
    requires line.Lagged? || line == Live(w.chan.events[w.sub.phase.cursor])
    ensures Increasing(w.sub.lines + [line])
  {
    hide Accounts;
    var lines := w.sub.lines;
    if line.Live? && line.event.Posted? {
      forall i | 0 <= i < |lines| && NumberOf(lines[i]).Some?
        ensures NumberOf(lines[i]).value < line.event.message.number
      {
        if lines[i].Live? {
          assert Within(lines[i].event, w.chan.events, w.sub.start, w.sub.phase.cursor);
        }
      }
    }
  }

  // ---- runs -----------------------------------------------------------------------------------------

  /** `ws` starts with a subscription to a well-formed channel and goes on by any steps in any order. */
  ghost predicate Run(ws: seq<World>, since: nat, base: nat) {
    && ws != []
    && ChanInv(ws[0].chan, base) && base < ws[0].chan.nextNumber
    && ws[0] == Subscribe(ws[0].chan, since)
    && forall i | 0 <= i < |ws| - 1 :: Step(ws[i], ws[i + 1])
  }

  lemma {:induction false} RunKeepsInv(ws: seq<World>, since: nat, base: nat, i: nat) returns (replayed: nat)
    requires Run(ws, since, base) && i < |ws|
    ensures ChanInv(ws[i].chan, base) && SubInv(ws[i], replayed)
    ensures ws[i].sub.highWater == ws[0].sub.highWater < ws[i].chan.nextNumber
    ensures ws[i].sub.since == since && ws[i].sub.start == ws[0].sub.start && base <= ws[i].sub.highWater
  {
    if i == 0 {
      replayed := 0;
    } else {
      replayed := RunKeepsInv(ws, since, base, i - 1);
      var w, x := ws[i - 1], ws[i];
      assert Step(w, x);
      if ChannelStep(w.chan, x.chan) && x.sub == w.sub {
        ChannelStepKeeps(w, x, base, replayed);
      } else if w.sub.phase.Subscribed? && x == Replay(w) {
        ReplayKeeps(w, base);
        replayed := |x.sub.lines| - 1;
      } else {
        ReceiveKeeps(w, base, replayed);
      }
    }
  }

  /** However posts interleave with the subscription, the message numbers shown strictly increase. */
  lemma NumbersIncrease(ws: seq<World>, since: nat, base: nat, i: nat)
    requires Run(ws, since, base) && i < |ws|
    ensures Increasing(ws[i].sub.lines)
  {
    var _ := RunKeepsInv(ws, since, base, i);
  }

  /**
   * The lines shown by `w` to a subscriber that started at `first`: a replay of requested messages up
   * to the high-water mark, the acknowledgement, and then every event broadcast since the subscribe
   * call up to the queue position, shown in order or counted by a lag notice.
   */
  ghost predicate Complete(first: World, w: World, since: nat, replayed: nat) {
    var s, events := w.sub, w.chan.events;
    && s.phase.Streaming?
    && |first.chan.events| <= s.phase.cursor <= |events|
    && Layout(s.lines, replayed, since, SaturatingSub(first.chan.nextNumber, 1))
    && Accounts(s.lines[replayed + 1..], events, |first.chan.events|, s.phase.cursor)
  }

  /** No gap and no duplicate, whatever interleaves. */
  lemma NothingIsMissed(ws: seq<World>, since: nat, base: nat, i: nat)
    requires Run(ws, since, base) && i < |ws| && ws[i].sub.phase.Streaming?
    ensures exists replayed :: Complete(ws[0], ws[i], since, replayed)
  {
    var replayed := RunKeepsInv(ws, since, base, i);
    assert Complete(ws[0], ws[i], since, replayed);
  }

  /** At the history read, every retained requested message is replayed or was broadcast after the subscribe call. */
  lemma ReadCoversWindow(ws: seq<World>, since: nat, base: nat, i: nat, m: Message)
    requires Run(ws, since, base) && i < |ws| && ws[i].sub.phase.Subscribed?
    requires m in ws[i].chan.messages && since < m.number
    ensures m.number <= ws[0].chan.nextNumber - 1 ==> Replayed(m) in Replay(ws[i]).sub.lines
    ensures m.number > ws[0].chan.nextNumber - 1 ==>
        Within(Posted(m), ws[i].chan.events, |ws[0].chan.events|, |ws[i].chan.events|)
  {
    var replayed := RunKeepsInv(ws, since, base, i);
    ReplayKeeps(ws[i], base);
    if m.number > ws[0].chan.nextNumber - 1 {
      assert Posted(m) in ws[i].chan.events;
    }
  }

  // ---- the channel's own operations are channel steps ------------------------------------------------

  lemma {:induction false} EvictedIsSuffix(s: seq<Message>, limit: nat, budget: nat)
    ensures |Evicted(s, limit, budget)| <= |s| && Evicted(s, limit, budget) == s[|s| - |Evicted(s, limit, budget)|..]
  {
    if s != [] && Overfull(|s|, Bytes(s), limit, budget) {
      EvictedIsSuffix(s[1..], limit, budget);
    }
  }

  /** What `Channel.Append` does is a channel step. */
  lemma AppendIsChannelStep(c: Chan, m: Message, limit: nat, budget: nat)
    requires m.number == c.nextNumber
    ensures ChannelStep(
        c, Chan(Evicted(c.messages + [m], limit, budget), c.nextNumber + 1, c.events + [Posted(m)]))
  {
    EvictedIsSuffix(c.messages + [m], limit, budget);
    var e := Posted(m);
    var window := Evicted(c.messages + [m], limit, budget);
    var k := |c.messages| + 1 - |window|;
    assert window == (c.messages + [m])[k..];
  }

  /** What `Channel.Join`, `Leave` and `BeginPost` do is a channel step, or nothing. */
  lemma PresenceIsChannelStep(c: Chan, agent: string)
    ensures Seated(c.events, agent) == c.events || ChannelStep(c, c.(events := Seated(c.events, agent)))
    ensures Unseated(c.events, agent) == c.events || ChannelStep(c, c.(events := Unseated(c.events, agent)))
  {
    if agent in MembersOf(c.events) {
      var e := Left(agent, |MembersOf(c.events)| - 1);
      assert c.(events := Unseated(c.events, agent)).events == c.events + [e];
    } else {
      var e := Joined(agent, |MembersOf(c.events)| + 1);
      assert c.(events := Seated(c.events, agent)).events == c.events + [e];
    }
  }

  // ---- every valid channel can be subscribed to -------------------------------------------------------

  /** What a subscription sees of a channel. */
  ghost function ChanOf(c: Channel): Chan
    reads c
  {
    Chan(c.messages, c.nextNumber, c.events)
  }

  /** The messages among the events are exactly those that were broadcast. */
  lemma {:induction false} PostedInMember(events: seq<Event>, m: Message)
    ensures m in PostedIn(events) <==> Posted(m) in events
  {
    if events != [] {
      var n := |events| - 1;
      PostedInMember(events[..n], m);
      assert events == events[..n] + [events[n]];
    }
  }

  /** Posted events carry growing numbers when the messages among them do. */
  lemma {:induction false} PostedNumbers(events: seq<Event>, i: nat, j: nat)
    requires Numbered(PostedIn(events)) && i < j < |events| && events[i].Posted? && events[j].Posted?
    ensures events[i].message.number < events[j].message.number
  {
    var n := |events| - 1;
    var init := events[..n];
    if j < n {
      assert PostedIn(init) <= PostedIn(events);
      PostedNumbers(init, i, j);
    } else {
      assert init[i] == events[i];
      PostedInMember(init, events[i].message);
      LastIsGreatest(PostedIn(init), events[j].message, events[i].message);
    }
  }

  lemma LastIsGreatest(s: seq<Message>, last: Message, m: Message)
    requires Numbered(s + [last]) && m in s
    ensures m.number < last.number
  {
    var k :| 0 <= k < |s| && s[k] == m;
    assert (s + [last])[k] == m && (s + [last])[|s|] == last;
  }

  /** A channel whose methods keep `Valid` satisfies what a subscription starts from. */
  lemma ValidChannelStarts(c: Channel, since: nat)
    requires c.Valid()
    ensures ChanInv(ChanOf(c), c.base - 1) && Run([Subscribe(ChanOf(c), since)], since, c.base - 1)
  {
    hide PostedIn, IsLongestFittingSuffix, Bytes, Truthful, MembersOf;
    var posted, log := PostedIn(c.events), c.Log();
    SuffixOfLog(c);
    assert posted == log[|c.restored|..];
    assert forall m | m in posted :: m in log;
    forall i, j | 0 <= i < j < |c.events| && c.events[i].Posted? && c.events[j].Posted?
      ensures c.events[i].message.number < c.events[j].message.number
    {
      PostedNumbers(c.events, i, j);
    }
    forall i | 0 <= i < |c.events| && c.events[i].Posted?
      ensures c.events[i].message.number < c.nextNumber
    {
      PostedInMember(c.events, c.events[i].message);
    }
    forall m | m in c.messages && m.number > c.base - 1
      ensures Posted(m) in c.events
    {
      assert m in log && m !in c.restored;
      PostedInMember(c.events, m);
    }
  }

  /** So every subscription to a valid channel shows increasing numbers, without gap or duplicate. */
  lemma ValidChannelDelivers(c: Channel, ws: seq<World>, since: nat, i: nat)
    requires c.Valid() && i < |ws| && ws[0] == Subscribe(ChanOf(c), since)
    requires forall k | 0 <= k < |ws| - 1 :: Step(ws[k], ws[k + 1])
    ensures Increasing(ws[i].sub.lines)
    ensures ws[i].sub.phase.Streaming? ==> exists replayed :: Complete(ws[0], ws[i], since, replayed)
  {
    ValidChannelStarts(c, since);
    hide Step, ChanInv, Complete, Increasing;
    NumbersIncrease(ws, since, c.base - 1, i);
    if ws[i].sub.phase.Streaming? {
      NothingIsMissed(ws, since, c.base - 1, i);
    }
  }

  lemma SuffixOfLog(c: Channel)
    requires c.Valid()
    ensures Numbered(c.messages) && forall m | m in c.messages :: m in c.Log()
  {
    hide PostedIn, Bytes, Truthful, MembersOf;
    var log, k := c.Log(), |c.Log()| - |c.messages|;
    assert forall i | 0 <= i < |c.messages| :: c.messages[i] == log[k + i];
  }
}
