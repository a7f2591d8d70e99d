/** One channel of the bridge state: members, message window, counters and broadcasts, updated in place. */
module Channels {
  import opened Prelude
  import opened Text
  import opened Sequences
  import opened ChannelLog

  const MAX_KEY_BYTES := 120

  datatype ChannelError =
    | AgentKeyRequired
    | AgentKeyTooLong
    | ContentRequired
    | ContentTooLarge
    | MetaTooLarge
    | ChannelFull(current: nat)

  datatype Member = Member(admin: bool, joinedAt: nat, lastSeenAt: nat)

  /** Message numbers grow along a sequence. */
  ghost predicate Numbered(s: seq<Message>) {
    forall i, j | 0 <= i < j < |s| :: s[i].number < s[j].number
  }

  /** The messages among the events, in broadcast order. */
  function PostedIn(events: seq<Event>): seq<Message> {
    if events == [] then []
    else
      PostedIn(events[..|events| - 1])
      + match events[|events| - 1] case Posted(m) => [m] case _ => []
  }

  function ByNumber(): Message -> seq<int> { (m: Message) => [m.number] }

  /** The restored messages lie below `base`, the posted ones from there up to `next`, all in order. */
  ghost predicate NumbersFit(restored: seq<Message>, posted: seq<Message>, base: nat, next: nat) {
    && Numbered(restored + posted)
    && 1 <= base <= next
    && (forall m | m in restored :: m.number < base)
    && (forall m | m in posted :: base <= m.number < next)
  }

  class Channel {
    var members: map<string, Member>
    var messages: seq<Message>
    var historyBytes: nat
    var nextNumber: nat
    var messageCount: nat
    const limit: nat
    const budget: nat
    const maxContentBytes: nat
    /** Every broadcast since the channel was created. */
    ghost var events: seq<Event>
    /** The messages restored at startup. */
    ghost var restored: seq<Message>
    /** The first number this process gives out. */
    ghost var base: nat

    /** All messages the window was cut from: the restored ones, then the posted ones. */
    ghost function Log(): seq<Message>
      reads this
    {
      restored + PostedIn(events)
    }

    ghost predicate Valid()
      reads this
    {
      && members.Keys == MembersOf(events)
      && |members| <= MAX_MEMBERS
      && Truthful(events)
      && IsLongestFittingSuffix(messages, Log(), limit, budget)
      && historyBytes == Bytes(messages)
      && NumbersFit(restored, PostedIn(events), base, nextNumber)
      && |messages| <= messageCount
    }

    constructor (limit: nat, budget: nat, maxContentBytes: nat)
      requires limit >= 1
      ensures Valid() && members == map[] && messages == [] && events == [] && restored == []
      ensures nextNumber == base == 1 && messageCount == 0
      ensures this.limit == limit && this.budget == budget && this.maxContentBytes == maxContentBytes
    {
      members, messages, historyBytes, nextNumber, messageCount := map[], [], 0, 1, 0;
      this.limit, this.budget, this.maxContentBytes := limit, budget, maxContentBytes;
      events, restored, base := [], [], 1;
    }

    /** Joining is idempotent; a new member takes a seat and is announced. */
    method Join(agentKey: string, admin: bool, at: nat) returns (r: Result<bool, ChannelError>)
      requires Valid()
      modifies `members, `events
      ensures Valid()
      ensures var key := Trim(agentKey);
        if key == "" then r == Err(AgentKeyRequired) && members == old(members) && events == old(events)
        else if Utf8Len(key) > MAX_KEY_BYTES then
          r == Err(AgentKeyTooLong) && members == old(members) && events == old(events)
        else if key in old(members) then
          r == Ok(false) && events == old(events)
          && members == old(members)[key := old(members)[key].(lastSeenAt := at)]
        else if |old(members)| >= MAX_MEMBERS then
          r == Err(ChannelFull(|old(members)|)) && members == old(members) && events == old(events)
        else
          && r == Ok(true)
          && members == old(members)[key := Member(admin, at, at)]
          && events == old(events) + [Joined(key, |old(members)| + 1)]
      ensures r.Ok? ==> events == Seated(old(events), Trim(agentKey))
    {
      hide Trim, Evicted, Bytes, Utf8Len, NumbersFit, Truthful, TruthfulAfter, IsLongestFittingSuffix, PostedIn;
      var key := Trim(agentKey);
      if key == "" {
        return Err(AgentKeyRequired);
      }
      if Utf8Len(key) > MAX_KEY_BYTES {
        return Err(AgentKeyTooLong);
      }
      if key in members {
        members := members[key := members[key].(lastSeenAt := at)];
        return Ok(false);
      }
      if |members| >= MAX_MEMBERS {
        return Err(ChannelFull(|members|));
      }
      ghost var e := Joined(key, |members| + 1);
      KeySize(members);
      members := members[key := Member(admin, at, at)];
      KeySize(members);
      assert members.Keys == old(members).Keys + {key};
      JoinIsTruthful(events, key);
      TruthfulAppend(events, e);
      PresenceNotLogged(events, e);
      events := events + [e];
      return Ok(true);
    }

    method Leave(agentKey: string) returns (left: bool)
      requires Valid()
      modifies `members, `events
      ensures Valid()
      ensures left <==> agentKey in old(members)
      ensures left ==>
          && members == old(members) - {agentKey}
          && events == old(events) + [Left(agentKey, |old(members)| - 1)]
      ensures !left ==> members == old(members) && events == old(events)
      ensures events == Unseated(old(events), agentKey)
    {
      hide Evicted, Bytes, NumbersFit, Truthful, IsLongestFittingSuffix, PostedIn;
      if agentKey !in members {
        return false;
      }
      KeySize(members);
      members := members - {agentKey};
      KeySize(members);
      assert members.Keys == old(members).Keys - {agentKey};
      ghost var e := Left(agentKey, |members|);
      assert MembersOf(events + [e]) == members.Keys;
      TruthfulAppend(events, e);
      PresenceNotLogged(events, e);
      events := events + [e];
      return true;
    }

    /** Drops the oldest messages, keeping the running byte count exact. */
    method EvictOldest() returns (evicted: nat)
      requires historyBytes == Bytes(messages)
      modifies `messages, `historyBytes
      ensures messages == Evicted(old(messages), limit, budget)
      ensures historyBytes == Bytes(messages)
      ensures evicted == |old(messages)| - |messages|
    {
      evicted := 0;
      while Overfull(|messages|, historyBytes, limit, budget)
        invariant historyBytes == Bytes(messages)
        invariant Evicted(messages, limit, budget) == Evicted(old(messages), limit, budget)
        invariant evicted == |old(messages)| - |messages|
        decreases |messages|
      {
        var oldest := messages[0];
        messages := messages[1..];
        historyBytes := SaturatingSub(historyBytes, RetainedBytes(oldest));
        evicted := evicted + 1;
      }
    }

    /** The part of a post done under the channel lock: number, append, evict, broadcast. */
    method Append(from: string, content: string, metaBytes: nat, at: nat) returns (message: Message, evicted: nat)
      requires Valid() && limit >= 1
      modifies `members, `messages, `historyBytes, `nextNumber, `messageCount, `events
      ensures Valid()
      ensures message == Message(old(nextNumber), from, content, metaBytes)
      ensures nextNumber == old(nextNumber) + 1 && messageCount == old(messageCount) + 1
      ensures events == old(events) + [Posted(message)]
      ensures messages == Evicted(old(messages) + [message], limit, budget)
      ensures evicted == |old(messages)| + 1 - |messages|
      ensures messages != [] && messages[|messages| - 1] == message
      ensures members.Keys == old(members).Keys
    {
      hide Evicted, Utf8Len, Truthful, TruthfulAfter, MembersOf, PostedIn, NumbersFit, Bytes, IsLongestFittingSuffix,
        Newest;
      message := Message(nextNumber, from, content, metaBytes);
      PostEffects(restored, events, messages, base, message, limit, budget);
      nextNumber := nextNumber + 1;
      messageCount := messageCount + 1;
      if from in members {
        members := members[from := members[from].(lastSeenAt := at)];
      }
      assert members.Keys == old(members).Keys;
      historyBytes := historyBytes + RetainedBytes(message);
      messages := messages + [message];
      evicted := EvictOldest();
      events := events + [Posted(message)];
    }

    /**
     * The first half of a post: the checks, then a seat, which a newcomer takes. The message follows
     * under a second lock, by `Append`, and others may have run by then.
     */
    method BeginPost(from: string, content: string, metaBytes: nat, at: nat) returns (r: Result<string, ChannelError>)
      requires Valid()
      modifies `members, `events
      ensures Valid()
      ensures r.Err? ==> members == old(members) && events == old(events)
      ensures r.Ok? ==>
          && r.value == Trim(from) && Trim(from) in members
          && members.Keys == old(members).Keys + {Trim(from)}
          && events == Seated(old(events), Trim(from))
      ensures r.Ok? <==>
          && Trim(from) != "" && Utf8Len(Trim(from)) <= MAX_KEY_BYTES
          && content != "" && Utf8Len(content) <= maxContentBytes && metaBytes <= maxContentBytes
          && (Trim(from) in old(members) || |old(members)| < MAX_MEMBERS)
    {
      hide Trim, Utf8Len, Evicted, Bytes, Valid;
      var key := Trim(from);
      if key == "" {
        return Err(AgentKeyRequired);
      }
      if Utf8Len(key) > MAX_KEY_BYTES {
        return Err(AgentKeyTooLong);
      }
      if content == "" {
        return Err(ContentRequired);
      }
      if Utf8Len(content) > maxContentBytes {
        return Err(ContentTooLarge);
      }
      if metaBytes > maxContentBytes {
        return Err(MetaTooLarge);
      }
      TrimTwice(from);
      var joined := Join(key, false, at);
      if joined.Err? {
        return Err(joined.error);
      }
      return Ok(key);
    }

    /** The retained messages after number `since`. */
    method History(since: Option<nat>) returns (r: seq<Message>)
      requires Valid()
      ensures r == After(messages, if since.Some? then since.value else 0)
    {
      var from := if since.Some? then since.value else 0;
      r := [];
      for i := 0 to |messages|
        invariant r == After(messages[..i], from)
      {
        assert messages[..i + 1] == messages[..i] + [messages[i]];
        AfterAppend(messages[..i], messages[i], from);
        if messages[i].number > from {
          r := r + [messages[i]];
        }
      }
      assert messages[..|messages|] == messages;
    }

    /** Restores the retained window, the durable count and the next number of a fresh channel. */
    method RestoreMessages(rows: seq<Message>, count: nat, maxNumber: nat)
      requires Valid() && events == []
      // the table's key is the channel and the number; the maximum comes from the same rows
      requires DistinctKeys(ByNumber(), rows) && forall m | m in rows :: m.number <= maxNumber
      modifies `messages, `historyBytes, `nextNumber, `messageCount, `restored, `base
      ensures Valid() && restored == Sort(ByNumber(), rows)
      ensures messages == Evicted(restored, limit, budget)
      ensures nextNumber == base == maxNumber + 1
      ensures messageCount == Max(count, |messages|)
    {
      hide Evicted, Utf8Len, NumbersFit, Truthful, IsLongestFittingSuffix, Bytes, Sort, DistinctKeys;
      var sorted := Sort(ByNumber(), rows);
      messages := sorted;
      historyBytes := Bytes(messages);
      var _ := EvictOldest();
      messageCount := Max(count, |messages|);
      nextNumber := Max(maxNumber + 1, 1);
      restored, base := sorted, nextNumber;
      EvictedIsLongest(sorted, limit, budget);
      RestoredFits(rows, maxNumber);
      assert Log() == sorted;
    }
  }

  /** What a post keeps of the channel's invariant. */
  lemma PostEffects(
    restored: seq<Message>, events: seq<Event>, window: seq<Message>, base: nat, m: Message, limit: nat, budget: nat)
    requires Truthful(events) && NumbersFit(restored, PostedIn(events), base, m.number) && limit >= 1
    requires IsLongestFittingSuffix(window, restored + PostedIn(events), limit, budget)
    ensures var after, kept := events + [Posted(m)], Evicted(window + [m], limit, budget);
      && Truthful(after) && MembersOf(after) == MembersOf(events)
      && NumbersFit(restored, PostedIn(after), base, m.number + 1)
      && IsLongestFittingSuffix(kept, restored + PostedIn(after), limit, budget)
      && kept != [] && kept[|kept| - 1] == m
      && Bytes(window + [m]) == Bytes(window) + RetainedBytes(m)
  {
    hide Evicted, Truthful, TruthfulAfter, MembersOf, PostedIn, NumbersFit, Bytes, IsLongestFittingSuffix, Newest;
    OneMoreMessage(window, m);
    PostKeepsLongest(window, restored + PostedIn(events), m, limit, budget);
    NewestOfNonempty(Evicted(window + [m], limit, budget), m);
    PostIsTruthful(events, m);
    TruthfulAppend(events, Posted(m));
    AppendLogged(restored, events, m);
    PostFits(restored, PostedIn(events), base, m);
  }

  lemma PostFits(restored: seq<Message>, posted: seq<Message>, base: nat, m: Message)
    requires NumbersFit(restored, posted, base, m.number)
    ensures NumbersFit(restored, posted + [m], base, m.number + 1)
  {
    NumberedAppend(restored + posted, m);
    assert restored + (posted + [m]) == (restored + posted) + [m];
  }

  lemma RestoredFits(rows: seq<Message>, maxNumber: nat)
    requires DistinctKeys(ByNumber(), rows) && forall m | m in rows :: m.number <= maxNumber
    ensures NumbersFit(Sort(ByNumber(), rows), [], maxNumber + 1, maxNumber + 1)
  {
    hide Sort, DistinctKeys;
    SortedNumbers(rows);
    assert Sort(ByNumber(), rows) + [] == Sort(ByNumber(), rows);
  }

  lemma SortedNumbers(rows: seq<Message>)
    requires DistinctKeys(ByNumber(), rows)
    ensures Numbered(Sort(ByNumber(), rows))
    ensures forall m :: m in Sort(ByNumber(), rows) <==> m in rows
  {
    var sorted := Sort(ByNumber(), rows);
    SortAscending(ByNumber(), rows);
    forall m
      ensures m in sorted <==> m in rows
    {
      assert m in sorted <==> m in multiset(sorted);
      assert m in rows <==> m in multiset(rows);
    }
    forall i, j | 0 <= i < j < |sorted|
      ensures sorted[i].number < sorted[j].number
    {
      CompareSingle(sorted[i].number, sorted[j].number);
    }
  }

  lemma CompareSingle(a: int, b: int)
    ensures CompareSeq([a], [b]) == Compare(a, b)
  {
    assert [a][1..] == [] && [b][1..] == [];
  }

  function After(s: seq<Message>, since: nat): seq<Message> {
    if s == [] then [] else (if s[0].number > since then [s[0]] else []) + After(s[1..], since)
  }

  lemma {:induction false} AfterAppend(s: seq<Message>, m: Message, since: nat)
    ensures After(s + [m], since) == After(s, since) + if m.number > since then [m] else []
  {
    if s != [] {
      assert (s + [m])[1..] == s[1..] + [m];
      AfterAppend(s[1..], m, since);
    }
  }

  lemma KeySize(members: map<string, Member>)
    ensures |members.Keys| == |members|
  {
  }

  lemma JoinIsTruthful(events: seq<Event>, key: string)
    requires key !in MembersOf(events) && |MembersOf(events)| < MAX_MEMBERS
    ensures TruthfulAfter(events, Joined(key, |MembersOf(events)| + 1))
    ensures MembersOf(events + [Joined(key, |MembersOf(events)| + 1)]) == MembersOf(events) + {key}
  {
    assert (events + [Joined(key, |MembersOf(events)| + 1)])[..|events|] == events;
  }

  lemma PostIsTruthful(events: seq<Event>, m: Message)
    ensures TruthfulAfter(events, Posted(m)) && MembersOf(events + [Posted(m)]) == MembersOf(events)
  {
    assert (events + [Posted(m)])[..|events|] == events;
  }

  lemma OneMoreMessage(s: seq<Message>, m: Message)
    ensures Bytes(s + [m]) == Bytes(s) + RetainedBytes(m)
  {
    BytesConcat(s, [m]);
  }

  lemma NewestOfNonempty(s: seq<Message>, m: Message)
    requires Newest(s) == Some(m)
    ensures s != [] && s[|s| - 1] == m
  {
  }

  lemma NumberedAppend(log: seq<Message>, m: Message)
    requires Numbered(log) && forall k | k in log :: k.number < m.number
    ensures Numbered(log + [m])
  {
  }

  lemma PresenceNotLogged(events: seq<Event>, e: Event)
    requires !e.Posted?
    ensures PostedIn(events + [e]) == PostedIn(events)
  {
    assert (events + [e])[..|events|] == events;
  }

  lemma AppendLogged(restored: seq<Message>, events: seq<Event>, m: Message)
    ensures PostedIn(events + [Posted(m)]) == PostedIn(events) + [m]
    ensures restored + PostedIn(events + [Posted(m)]) == restored + PostedIn(events) + [m]
  {
    assert (events + [Posted(m)])[..|events|] == events;
  }

  lemma {:induction false} TrimStartStable(s: string)
    ensures TrimStart(s) == [] || !IsSpace(TrimStart(s)[0])
  {
    if s != [] && IsSpace(s[0]) {
      TrimStartStable(s[1..]);
    }
  }

  lemma {:induction false} TrimEndStable(s: string)
    ensures TrimEnd(s) <= s && (TrimEnd(s) == [] || !IsSpace(TrimEnd(s)[|TrimEnd(s)| - 1]))
  {
    if s != [] && IsSpace(s[|s| - 1]) {
      TrimEndStable(s[..|s| - 1]);
    }
  }

  /** Trimming a trimmed string changes nothing. */
  lemma TrimTwice(s: string)
    ensures Trim(Trim(s)) == Trim(s)
  {
    TrimStartStable(s);
    TrimEndStable(TrimStart(s));
  }
}
