/** Repository-path leases: every run of acquire, renew, release and lookup. */
module Leases {
  import opened Prelude
  import opened Sequences
  import opened Tallies
  import opened Paths

  /**
   * One stored lease. `deadline` is the instant that ends it; `told` is the expiry reported to the
   * client, which the server computes later, once it holds the lock.
   */
  datatype Lease = Lease(
    id: nat, repository: string, path: string, recursive: bool, agent: string, token: nat, deadline: nat, told: nat)

  datatype Table = Table(leases: map<nat, Lease>, lastToken: nat)

  /** A validated request; paths are already canonical and agent keys trimmed. */
  datatype Op =
    | Acquire(freshId: nat, repository: string, path: string, recursive: bool, agent: string, ttl: nat)
    | Renew(id: nat, agent: string, token: nat, ttl: nat)
    | Release(id: nat, agent: string, token: nat)
    | Lookup(inRepository: Option<string>, query: Option<string>, heldBy: Option<string>, below: bool)

  /** A request reads the clock (`now`) before it gets the lock, which it gets at `wall`. */
  datatype Event = Event(op: Op, now: nat, wall: nat)

  datatype Reply =
    | Granted(lease: Lease)
    | Released(lease: Lease)
    | Found(holders: set<Lease>)
    | Conflict(holder: string)
    | Full
    | NotFound
    | OwnerMismatch
    | StaleToken

  function Live(leases: map<nat, Lease>, now: nat): map<nat, Lease> {
    map id | id in leases && leases[id].deadline > now :: leases[id]
  }

  /** A live lease of someone else whose scope meets the requested one. */
  predicate Blocks(l: Lease, op: Op)
    requires op.Acquire?
  {
    l.repository == op.repository && l.agent != op.agent && ScopesOverlap(l.path, l.recursive, op.path, op.recursive)
  }

  /** The agent's own lease of exactly this path. */
  predicate OwnHolding(l: Lease, op: Op)
    requires op.Acquire?
  {
    l.repository == op.repository && l.path == op.path && l.agent == op.agent
  }

  predicate Matches(l: Lease, op: Op)
    requires op.Lookup?
  {
    && (op.inRepository.Some? ==> l.repository == op.inRepository.value)
    && (op.query.Some? ==> ScopesOverlap(l.path, l.recursive, op.query.value, op.below))
    && (op.heldBy.Some? ==> l.agent == op.heldBy.value)
  }

  function Refusal(live: map<nat, Lease>, id: nat, agent: string, token: nat): Option<Reply> {
    if id !in live then Some(NotFound)
    else if live[id].agent != agent then Some(OwnerMismatch)
    else if live[id].token != token then Some(StaleToken)
    else None
  }

  /** One request under the lock. The table of an unordered map leaves open which conflict is reported. */
  ghost predicate Next(t: Table, e: Event, limit: nat, u: Table, reply: Reply) {
    var live := Live(t.leases, e.now);
    match e.op
    case Acquire(freshId, repository, path, recursive, agent, ttl) =>
      if exists k | k in live :: Blocks(live[k], e.op) then
        u == t.(leases := live) && reply.Conflict?
        && exists k | k in live :: Blocks(live[k], e.op) && live[k].agent == reply.holder
      else if exists k | k in live :: OwnHolding(live[k], e.op) then
        && reply.Granted? && reply.lease.id in live && OwnHolding(live[reply.lease.id], e.op)
        && reply.lease == live[reply.lease.id].(recursive := recursive, deadline := e.now + ttl, told := e.wall + ttl)
        && u == t.(leases := live[reply.lease.id := reply.lease])
      else if |live| >= limit then u == t.(leases := live) && reply == Full
      else
        && reply == Granted(
            Lease(freshId, repository, path, recursive, agent, t.lastToken + 1, e.now + ttl, e.wall + ttl))
        && u == Table(live[freshId := reply.lease], t.lastToken + 1)
    case Renew(id, agent, token, ttl) =>
      var refusal := Refusal(live, id, agent, token);
      if refusal.Some? then u == t.(leases := live) && reply == refusal.value
      else
        && reply == Granted(live[id].(deadline := e.now + ttl, told := e.wall + ttl))
        && u == t.(leases := live[id := reply.lease])
    case Release(id, agent, token) =>
      var refusal := Refusal(live, id, agent, token);
      if refusal.Some? then u == t.(leases := live) && reply == refusal.value
      else u == t.(leases := live - {id}) && reply == Released(live[id])
    case Lookup(_, _, _, _) =>
      u == t.(leases := live) && reply == Found(set k | k in live && Matches(live[k], e.op) :: live[k])
  }

  /** The four ways an acquisition can end, each of them a step. */
  lemma AcquireEnds(t: Table, e: Event, limit: nat, k: nat)
    requires e.op.Acquire?
    ensures var live, op := Live(t.leases, e.now), e.op;
      var renewed := if k in live then
          live[k].(recursive := op.recursive, deadline := e.now + op.ttl, told := e.wall + op.ttl)
        else Lease(k, op.repository, op.path, op.recursive, op.agent, t.lastToken + 1, e.now + op.ttl, e.wall + op.ttl);
      var blocked, held := Blocked(live, op), Held(live, op);
      && (k in live && Blocks(live[k], op) ==> Next(t, e, limit, t.(leases := live), Conflict(live[k].agent)))
      && (!blocked && k in live && OwnHolding(live[k], op) && renewed.id == k ==>
            Next(t, e, limit, t.(leases := live[k := renewed]), Granted(renewed)))
      && (!blocked && !held && |live| >= limit ==> Next(t, e, limit, t.(leases := live), Full))
      && (!blocked && !held && |live| < limit && k == op.freshId && k !in live ==>
            Next(t, e, limit, Table(live[k := renewed], t.lastToken + 1), Granted(renewed)))
  {
    hide ScopesOverlap, Live;
  }

  ghost predicate Blocked(live: map<nat, Lease>, op: Op)
    requires op.Acquire?
  {
    exists k | k in live :: Blocks(live[k], op)
  }

  ghost predicate Held(live: map<nat, Lease>, op: Op)
    requires op.Acquire?
  {
    exists k | k in live :: OwnHolding(live[k], op)
  }

  // ---- runs ----------------------------------------------------------------------------------

  /** What the clients were granted: the last lease returned under an id, and whether it was released. */
  datatype Grant = Grant(lease: Lease, released: bool)

  /** The lock manager together with the history a run leaves behind. */
  datatype World = World(table: Table, clock: nat, grants: map<nat, Grant>, order: seq<nat>)

  const INITIAL := World(Table(map[], 0), 0, map[], [])

  ghost predicate Admissible(w: World, e: Event) {
    && e.now <= e.wall && w.clock <= e.wall
    && (e.op.Acquire? ==> e.op.freshId !in w.grants && Canonical(e.op.path))
  }

  function Record(w: World, table: Table, wall: nat, reply: Reply): World {
    match reply
    case Granted(l) =>
      World(table, wall, w.grants[l.id := Grant(l, false)], if l.id in w.grants then w.order else w.order + [l.id])
    case Released(l) => World(table, wall, w.grants[l.id := Grant(l, true)], w.order)
    case _ => World(table, wall, w.grants, w.order)
  }

  ghost predicate Step(w: World, e: Event, limit: nat, x: World, reply: Reply) {
    Admissible(w, e) && Next(w.table, e, limit, x.table, reply) && x == Record(w, x.table, e.wall, reply)
  }

  /** `ws` are the worlds of a run from the empty table, `es` its requests, `rs` the replies. */
  ghost predicate Run(ws: seq<World>, es: seq<Event>, rs: seq<Reply>, limit: nat) {
    && |ws| == |es| + 1 && |rs| == |es|
    && ws[0] == INITIAL
    && forall i | 0 <= i < |es| :: Step(ws[i], es[i], limit, ws[i + 1], rs[i])
  }

  // ---- the invariant ----------------------------------------------------------------------------

  ghost predicate Exclusive(leases: map<nat, Lease>) {
    forall a, b | a in leases && b in leases && leases[a].repository == leases[b].repository
        && ScopesOverlap(leases[a].path, leases[a].recursive, leases[b].path, leases[b].recursive) ::
      leases[a].agent == leases[b].agent
  }

  ghost predicate OneHoldingPerPath(leases: map<nat, Lease>) {
    forall a, b | a in leases && b in leases && leases[a].repository == leases[b].repository
        && leases[a].path == leases[b].path && leases[a].agent == leases[b].agent ::
      a == b
  }

  ghost predicate Backed(w: World) {
    forall id | id in w.table.leases ::
      id in w.grants && w.grants[id] == Grant(w.table.leases[id], false)
  }

  /** A grant that was neither released nor expired is still in the table. */
  ghost predicate Kept(w: World) {
    forall id | id in w.grants && !w.grants[id].released && w.grants[id].lease.deadline > w.clock ::
      id in w.table.leases
  }

  ghost predicate Numbered(w: World) {
    && (forall id | id in w.grants ::
          w.grants[id].lease.id == id && id in w.order && 0 < w.grants[id].lease.token <= w.table.lastToken
          && Canonical(w.grants[id].lease.path) && w.grants[id].lease.deadline <= w.grants[id].lease.told)
    && (forall i | 0 <= i < |w.order| :: w.order[i] in w.grants)
    && (forall i, j | 0 <= i < j < |w.order| ::
          w.order[i] in w.grants && w.order[j] in w.grants
          && w.grants[w.order[i]].lease.token < w.grants[w.order[j]].lease.token)
  }

  ghost predicate Inv(w: World, limit: nat) {
    && Exclusive(w.table.leases)
    && OneHoldingPerPath(w.table.leases)
    && Backed(w) && Kept(w) && Numbered(w)
    && |w.table.leases| <= limit
  }

  lemma OverlapSymmetric(a: string, ar: bool, b: string, br: bool)
    ensures ScopesOverlap(a, ar, b, br) == ScopesOverlap(b, br, a, ar)
  {
  }

  lemma LiveSize(leases: map<nat, Lease>, now: nat)
    ensures |Live(leases, now)| <= |leases|
  {
    SubsetSize(Live(leases, now).Keys, leases.Keys);
  }

  /** What a request can do to the table: prune it, and then put in one lease or take out one. */
  ghost predicate Effect(t: Table, e: Event, u: Table, reply: Reply) {
    var live := Live(t.leases, e.now);
    match reply
    case Granted(l) =>
      && u.leases == live[l.id := l]
      && l.told - l.deadline == e.wall - e.now
      && (if l.id in live then
            && u.lastToken == t.lastToken
            && l == live[l.id].(recursive := l.recursive, deadline := l.deadline, told := l.told)
          else
            && e.op.Acquire? && l.id == e.op.freshId && l.path == e.op.path
            && l.token == u.lastToken == t.lastToken + 1)
    case Released(l) =>
      e.op.Release? && l.id == e.op.id && l.id in live && l == live[l.id] && u == t.(leases := live - {l.id})
    case _ => u == t.(leases := live)
  }

  lemma LiveMeaning(leases: map<nat, Lease>, now: nat)
    ensures var live := Live(leases, now);
      && (forall id :: id in live <==> id in leases && leases[id].deadline > now)
      && (forall id | id in live :: live[id] == leases[id])
  {
  }

  lemma NextHasEffect(t: Table, e: Event, limit: nat, u: Table, reply: Reply)
    requires Next(t, e, limit, u, reply)
    requires forall id | id in t.leases :: t.leases[id].id == id
    requires e.op.Acquire? ==> e.op.freshId !in t.leases
    ensures Effect(t, e, u, reply)
  {
    if e.op.Acquire? {
      AcquireHasEffect(t, e, limit, u, reply);
    } else {
      hide ScopesOverlap, Matches, Live;
      LiveMeaning(t.leases, e.now);
    }
  }

  lemma AcquireHasEffect(t: Table, e: Event, limit: nat, u: Table, reply: Reply)
    requires Next(t, e, limit, u, reply) && e.op.Acquire?
    requires forall id | id in t.leases :: t.leases[id].id == id
    requires e.op.freshId !in t.leases
    ensures Effect(t, e, u, reply)
  {
    hide ScopesOverlap, Blocks, OwnHolding, Live;
    LiveMeaning(t.leases, e.now);
  }

  lemma LiveKeepsTable(leases: map<nat, Lease>, now: nat)
    ensures var live := Live(leases, now);
      && |live| <= |leases|
      && (Exclusive(leases) ==> Exclusive(live))
      && (OneHoldingPerPath(leases) ==> OneHoldingPerPath(live))
  {
    hide ScopesOverlap;
    LiveSize(leases, now);
  }

  /** Putting in a lease that meets nobody else's scope keeps the table exclusive. */
  lemma PutKeepsTable(live: map<nat, Lease>, l: Lease)
    requires Exclusive(live) && OneHoldingPerPath(live)
    requires forall a | a in live && a != l.id && live[a].repository == l.repository
        && ScopesOverlap(live[a].path, live[a].recursive, l.path, l.recursive) :: live[a].agent == l.agent
    requires forall a | a in live && a != l.id && live[a].repository == l.repository && live[a].path == l.path ::
        live[a].agent != l.agent
    ensures Exclusive(live[l.id := l]) && OneHoldingPerPath(live[l.id := l])
  {
    hide ScopesOverlap;
    var u := live[l.id := l];
    forall a, b | a in u && b in u && u[a].repository == u[b].repository
        && ScopesOverlap(u[a].path, u[a].recursive, u[b].path, u[b].recursive)
      ensures u[a].agent == u[b].agent
    {
      OverlapSymmetric(u[a].path, u[a].recursive, u[b].path, u[b].recursive);
    }
  }

  lemma PutSize(live: map<nat, Lease>, l: Lease)
    ensures |live[l.id := l]| == if l.id in live then |live| else |live| + 1
  {
    assert live[l.id := l].Keys == live.Keys + {l.id};
  }

  /** Whatever is granted meets no live scope of another agent and repeats no holding. */
  lemma GrantedFits(t: Table, e: Event, limit: nat, u: Table, reply: Reply)
    requires Next(t, e, limit, u, reply) && reply.Granted?
    requires Exclusive(t.leases) && OneHoldingPerPath(t.leases)
    requires forall id | id in t.leases :: t.leases[id].id == id
    requires e.op.Acquire? ==> e.op.freshId !in t.leases
    ensures var live, l := Live(t.leases, e.now), reply.lease;
      && u.leases == live[l.id := l]
      && (forall a | a in live && a != l.id && live[a].repository == l.repository
          && ScopesOverlap(live[a].path, live[a].recursive, l.path, l.recursive) :: live[a].agent == l.agent)
      && (forall a | a in live && a != l.id && live[a].repository == l.repository && live[a].path == l.path ::
          live[a].agent != l.agent)
      && (l.id !in live ==> |live| < limit)
  {
    hide ScopesOverlap, Live, Exclusive, OneHoldingPerPath;
    var live, l := Live(t.leases, e.now), reply.lease;
    LiveKeepsTable(t.leases, e.now);
    LiveMeaning(t.leases, e.now);
    NextHasEffect(t, e, limit, u, reply);
    if e.op.Acquire? {
      AcquireGrants(t, e, limit, u, reply);
      if l.id in live {
        HeldFits(live, l.id);
      }
    } else {
      hide Next;
      HeldFits(live, l.id);
    }
  }

  /** What an acquisition is granted for: the requested scope, which nobody else's meets. */
  lemma AcquireGrants(t: Table, e: Event, limit: nat, u: Table, reply: Reply)
    requires Next(t, e, limit, u, reply) && reply.Granted? && e.op.Acquire?
    ensures var live, l := Live(t.leases, e.now), reply.lease;
      && l.repository == e.op.repository && l.agent == e.op.agent
      && l.path == e.op.path && l.recursive == e.op.recursive
      && (forall a | a in live :: !Blocks(live[a], e.op))
      && (l.id !in live ==> |live| < limit && forall a | a in live :: !OwnHolding(live[a], e.op))
  {
    hide ScopesOverlap, Live;
  }

  /** A lease of the table meets no scope of another agent and repeats no holding. */
  lemma HeldFits(live: map<nat, Lease>, id: nat)
    requires Exclusive(live) && OneHoldingPerPath(live) && id in live
    ensures var l := live[id];
      && (forall a | a in live && live[a].repository == l.repository
          && ScopesOverlap(live[a].path, live[a].recursive, l.path, l.recursive) :: live[a].agent == l.agent)
      && (forall a | a in live && a != id && live[a].repository == l.repository && live[a].path == l.path ::
          live[a].agent != l.agent)
  {
    hide ScopesOverlap;
  }

  /** Nothing a request does lets two agents share a path, or one agent hold a path twice. */
  lemma TableStep(t: Table, e: Event, limit: nat, u: Table, reply: Reply)
    requires Next(t, e, limit, u, reply)
    requires Exclusive(t.leases) && OneHoldingPerPath(t.leases) && |t.leases| <= limit
    requires forall id | id in t.leases :: t.leases[id].id == id
    requires e.op.Acquire? ==> e.op.freshId !in t.leases
    ensures Exclusive(u.leases) && OneHoldingPerPath(u.leases) && |u.leases| <= limit
  {
    hide ScopesOverlap, Next, Exclusive, OneHoldingPerPath, Live;
    var live := Live(t.leases, e.now);
    LiveKeepsTable(t.leases, e.now);
    NextHasEffect(t, e, limit, u, reply);
    if reply.Granted? {
      GrantedFits(t, e, limit, u, reply);
      PutKeepsTable(live, reply.lease);
      PutSize(live, reply.lease);
    } else if reply.Released? {
      TakeKeepsTable(live, reply.lease.id);
    }
  }

  lemma TakeKeepsTable(live: map<nat, Lease>, id: nat)
    requires Exclusive(live) && OneHoldingPerPath(live)
    ensures Exclusive(live - {id}) && OneHoldingPerPath(live - {id}) && |live - {id}| <= |live|
  {
    hide ScopesOverlap;
    SubsetSize((live - {id}).Keys, live.Keys);
  }

  /** Every request keeps the invariant. */
  lemma StepKeepsInv(w: World, e: Event, limit: nat, x: World, reply: Reply)
    requires Inv(w, limit) && Step(w, e, limit, x, reply)
    ensures Inv(x, limit)
  {
    TableStep(w.table, e, limit, x.table, reply);
    HistoryStep(w, e, limit, x, reply);
  }

  lemma HistoryStep(w: World, e: Event, limit: nat, x: World, reply: Reply)
    requires Backed(w) && Kept(w) && Numbered(w) && Step(w, e, limit, x, reply)
    ensures Backed(x) && Kept(x) && Numbered(x)
  {
    hide Next, Canonical;
    NextHasEffect(w.table, e, limit, x.table, reply);
    BackedStep(w, e, x, reply);
    NumberedStep(w, e, x, reply);
  }

  lemma BackedStep(w: World, e: Event, x: World, reply: Reply)
    requires Backed(w) && Kept(w) && Numbered(w) && Admissible(w, e)
    requires Effect(w.table, e, x.table, reply) && x == Record(w, x.table, e.wall, reply)
    ensures Backed(x) && Kept(x)
  {
    hide Canonical, Live, Numbered, Backed, Kept;
    BackedAfter(w, e, x, reply);
    KeptAfter(w, e, x, reply);
  }

  lemma BackedAfter(w: World, e: Event, x: World, reply: Reply)
    requires Backed(w)
    requires Effect(w.table, e, x.table, reply) && x == Record(w, x.table, e.wall, reply)
    ensures Backed(x)
  {
    hide Live;
    LiveMeaning(w.table.leases, e.now);
  }

  lemma KeptAfter(w: World, e: Event, x: World, reply: Reply)
    requires Backed(w) && Kept(w) && Admissible(w, e)
    requires Effect(w.table, e, x.table, reply) && x == Record(w, x.table, e.wall, reply)
    ensures Kept(x)
  {
    hide Live, Canonical;
    LiveMeaning(w.table.leases, e.now);
    forall id | id in x.grants && !x.grants[id].released && x.grants[id].lease.deadline > x.clock
      ensures id in x.table.leases
    {
      if id in w.grants && x.grants[id] == w.grants[id] {
        assert id in w.table.leases;
        assert w.table.leases[id].deadline > e.now;
      }
    }
  }

  lemma NumberedStep(w: World, e: Event, x: World, reply: Reply)
    requires Backed(w) && Numbered(w) && Admissible(w, e)
    requires Effect(w.table, e, x.table, reply) && x == Record(w, x.table, e.wall, reply)
    ensures Numbered(x)
  {
    hide Canonical, Numbered;
    var live := Live(w.table.leases, e.now);
    if reply.Granted? && reply.lease.id !in live {
      FreshNumbered(w, x, reply.lease);
    } else if reply.Granted? || reply.Released? {
      assert live[reply.lease.id] == w.grants[reply.lease.id].lease;
      ReplacedNumbered(w, x, reply.lease, reply.Released?);
    } else {
      SameNumbered(w, x);
    }
  }

  lemma SameNumbered(w: World, x: World)
    requires Numbered(w) && x.grants == w.grants && x.order == w.order && x.table.lastToken == w.table.lastToken
    ensures Numbered(x)
  {
    hide Canonical;
  }

  lemma ReplacedNumbered(w: World, x: World, l: Lease, released: bool)
    requires Numbered(w) && x.order == w.order && x.table.lastToken == w.table.lastToken
    requires l.id in w.grants && x.grants == w.grants[l.id := Grant(l, released)]
    requires l.token == w.grants[l.id].lease.token && l.path == w.grants[l.id].lease.path
    requires l.deadline <= l.told || l == w.grants[l.id].lease
    ensures Numbered(x)
  {
    hide Canonical;
    assert forall id | id in w.grants :: x.grants[id].lease.token == w.grants[id].lease.token;
  }

  lemma FreshNumbered(w: World, x: World, l: Lease)
    requires Numbered(w) && l.id !in w.grants && x.order == w.order + [l.id]
    requires x.grants == w.grants[l.id := Grant(l, false)]
    requires l.token == x.table.lastToken == w.table.lastToken + 1 && Canonical(l.path) && l.deadline <= l.told
    ensures Numbered(x)
  {
    hide Canonical;
    forall i | 0 <= i < |w.order|
      ensures w.order[i] != l.id && x.grants[w.order[i]] == w.grants[w.order[i]]
    {
      assert w.order[i] in w.grants;
    }
  }

  lemma {:induction false} RunKeepsInv(ws: seq<World>, es: seq<Event>, rs: seq<Reply>, limit: nat, i: nat)
    requires Run(ws, es, rs, limit) && i < |ws|
    ensures Inv(ws[i], limit)
  {
    hide Step, Inv;
    if i == 0 {
      InitialInv(limit);
    } else {
      RunKeepsInv(ws, es, rs, limit, i - 1);
      StepKeepsInv(ws[i - 1], es[i - 1], limit, ws[i], rs[i - 1]);
    }
  }

  lemma InitialInv(limit: nat)
    ensures Inv(INITIAL, limit)
  {
  }

  // ---- the theorems --------------------------------------------------------------------------------

  /**
   * In every run, all stored leases that cover a path belong to one agent; and so do all the
   * grants, stored or not, that were neither released nor past their deadline.
   */
  lemma MutualExclusion(
    ws: seq<World>, es: seq<Event>, rs: seq<Reply>, limit: nat, i: nat, file: string, at: nat, a: nat, b: nat)
    requires Run(ws, es, rs, limit) && i < |ws| && Canonical(file)
    requires at >= ws[i].clock
    requires var g := ws[i].grants;
      && a in g && b in g && g[a].lease.repository == g[b].lease.repository
      && Covers(g[a].lease.path, g[a].lease.recursive, file) && Covers(g[b].lease.path, g[b].lease.recursive, file)
      && (a in ws[i].table.leases || (!g[a].released && g[a].lease.deadline > at))
      && (b in ws[i].table.leases || (!g[b].released && g[b].lease.deadline > at))
    ensures ws[i].grants[a].lease.agent == ws[i].grants[b].lease.agent
  {
    hide Covers, ScopesOverlap, Canonical;
    RunKeepsInv(ws, es, rs, limit, i);
    var x, y := ws[i].grants[a].lease, ws[i].grants[b].lease;
    OverlapMeansSharedPath(x.path, x.recursive, y.path, y.recursive);
  }

  /** Tokens grow in grant order, and a grant keeps its owner, path, repository and token for life. */
  lemma {:induction false} FencingTokens(
    ws: seq<World>, es: seq<Event>, rs: seq<Reply>, limit: nat, i: nat, j: nat)
    requires Run(ws, es, rs, limit) && i <= j < |ws|
    ensures ws[i].order <= ws[j].order
    ensures forall id | id in ws[i].grants ::
        id in ws[j].grants
        && var old', new' := ws[i].grants[id].lease, ws[j].grants[id].lease;
        && new'.agent == old'.agent && new'.path == old'.path
        && new'.repository == old'.repository && new'.token == old'.token
        && (ws[i].grants[id].released ==> ws[j].grants[id] == ws[i].grants[id])
    ensures forall p, q | 0 <= p < q < |ws[j].order| ::
        ws[j].order[p] in ws[j].grants && ws[j].order[q] in ws[j].grants
        && ws[j].grants[ws[j].order[p]].lease.token < ws[j].grants[ws[j].order[q]].lease.token
  {
    hide Step, Exclusive, OneHoldingPerPath, Backed, Kept, Canonical;
    RunKeepsInv(ws, es, rs, limit, j);
    if i < j {
      FencingTokens(ws, es, rs, limit, i, j - 1);
      RunKeepsInv(ws, es, rs, limit, j - 1);
      GrantForLife(ws[j - 1], es[j - 1], limit, ws[j], rs[j - 1]);
    }
  }

  lemma StepHasEffect(w: World, e: Event, limit: nat, x: World, reply: Reply)
    requires Inv(w, limit) && Step(w, e, limit, x, reply)
    ensures Effect(w.table, e, x.table, reply)
  {
    hide Next, Canonical, Exclusive, OneHoldingPerPath, Kept, Effect;
    NextHasEffect(w.table, e, limit, x.table, reply);
  }

  lemma GrantForLife(w: World, e: Event, limit: nat, x: World, reply: Reply)
    requires Inv(w, limit) && Step(w, e, limit, x, reply)
    ensures w.order <= x.order
    ensures forall id | id in w.grants ::
        id in x.grants
        && var old', new' := w.grants[id].lease, x.grants[id].lease;
        && new'.agent == old'.agent && new'.path == old'.path
        && new'.repository == old'.repository && new'.token == old'.token
        && (w.grants[id].released ==> x.grants[id] == w.grants[id])
  {
    hide Next, Canonical, Exclusive, OneHoldingPerPath, Kept, Numbered;
    StepHasEffect(w, e, limit, x, reply);
    if reply.Granted? {
      assert x.grants == w.grants[reply.lease.id := Grant(reply.lease, false)];
    } else if reply.Released? {
      assert x.grants == w.grants[reply.lease.id := Grant(reply.lease, true)];
    }
  }

  /** The request names the owner and token of a grant that is not released and unexpired at `at`. */
  ghost predicate Holds(w: World, op: Op, at: nat)
    requires op.Renew? || op.Release?
  {
    && op.id in w.grants && !w.grants[op.id].released
    && w.grants[op.id].lease.agent == op.agent && w.grants[op.id].lease.token == op.token
    && w.grants[op.id].lease.deadline > at
  }

  /**
   * A renewal or release succeeds only for the owner and token of an unexpired, unreleased grant,
   * and always does for such a grant that is still unexpired when the lock is obtained.
   */
  lemma OnlyTheHolderRenews(w: World, e: Event, limit: nat, x: World, reply: Reply)
    requires Inv(w, limit) && Step(w, e, limit, x, reply)
    ensures e.op.Renew? || e.op.Release? ==>
        && (reply.Granted? || reply.Released? ==> Holds(w, e.op, e.now))
        && (Holds(w, e.op, e.wall) ==> reply.Granted? || reply.Released?)
  {
    hide Canonical, Exclusive, OneHoldingPerPath, Live, Next;
    LiveMeaning(w.table.leases, e.now);
    if e.op.Renew? || e.op.Release? {
      GrantedUnlessRefused(w.table, e, limit, x.table, reply);
    }
  }

  lemma GrantedUnlessRefused(t: Table, e: Event, limit: nat, u: Table, reply: Reply)
    requires Next(t, e, limit, u, reply) && (e.op.Renew? || e.op.Release?)
    ensures reply.Granted? || reply.Released? <==>
        Refusal(Live(t.leases, e.now), e.op.id, e.op.agent, e.op.token).None?
  {
    hide Live;
  }

  /** The lease is stored and unexpired at `now`. */
  predicate LiveIn(w: World, id: nat, now: nat) { id in w.table.leases && w.table.leases[id].deadline > now }

  /** Why a renewal or release is refused: the first of three questions that fails. */
  lemma RefusalTells(w: World, e: Event, limit: nat, x: World, reply: Reply)
    requires Step(w, e, limit, x, reply)
    ensures e.op.Renew? || e.op.Release? ==>
        var id := e.op.id;
        && (reply.NotFound? <==> !LiveIn(w, id, e.now))
        && (reply.OwnerMismatch? <==> LiveIn(w, id, e.now) && w.table.leases[id].agent != e.op.agent)
        && (reply.StaleToken? <==>
              && LiveIn(w, id, e.now) && w.table.leases[id].agent == e.op.agent
              && w.table.leases[id].token != e.op.token)
        && (e.op.Renew? ==> !reply.Released?) && (e.op.Release? ==> !reply.Granted?)
        && (reply.Granted? || reply.Released? || reply.NotFound? || reply.OwnerMismatch? || reply.StaleToken?)
  {
    hide Live, Canonical;
    LiveMeaning(w.table.leases, e.now);
  }

  /** An acquisition is granted, refused for a conflict, or refused because a new lease would not fit. */
  lemma AcquireAnswers(w: World, e: Event, limit: nat, x: World, reply: Reply)
    requires Step(w, e, limit, x, reply)
    ensures e.op.Acquire? ==>
        var live := set id | id in w.table.leases && w.table.leases[id].deadline > e.now;
        var own := exists id | id in live ::
          var l := w.table.leases[id];
          l.repository == e.op.repository && l.path == e.op.path && l.agent == e.op.agent;
        && (reply.Granted? || reply.Conflict? || reply.Full?)
        && (reply.Full? <==> !reply.Conflict? && !own && |live| >= limit)
        && (reply.Conflict? ==>
              exists id | id in live ::
                var l := w.table.leases[id];
                l.agent == reply.holder != e.op.agent && l.repository == e.op.repository
                && ScopesOverlap(l.path, l.recursive, e.op.path, e.op.recursive))
  {
    hide Live, Canonical, ScopesOverlap;
    LiveMeaning(w.table.leases, e.now);
    assert (set id | id in w.table.leases && w.table.leases[id].deadline > e.now) == Live(w.table.leases, e.now).Keys;
    assert |Live(w.table.leases, e.now).Keys| == |Live(w.table.leases, e.now)|;
  }

  /**
   * What a grant says: the deadline counts from the clock read before the lock, the told expiry from
   * the one after it. A renewal changes nothing else; an acquisition gets the path and scope it asked
   * for, under the agent's own lease of the path if there is one and else under a new id and token.
   */
  lemma GrantTerms(w: World, e: Event, limit: nat, x: World, reply: Reply)
    requires Inv(w, limit) && Step(w, e, limit, x, reply) && reply.Granted?
    ensures e.op.Renew? || e.op.Acquire?
    ensures var l := reply.lease;
      && l.deadline == e.now + e.op.ttl && l.told == e.wall + e.op.ttl
      && (e.op.Renew? ==>
            && l.id == e.op.id && LiveIn(w, l.id, e.now)
            && l == w.table.leases[l.id].(deadline := l.deadline, told := l.told))
      && (e.op.Acquire? ==>
            && l.repository == e.op.repository && l.path == e.op.path && l.recursive == e.op.recursive
            && l.agent == e.op.agent
            && (if LiveIn(w, l.id, e.now) then l.token == w.table.leases[l.id].token
                else l.id == e.op.freshId && l.token == w.table.lastToken + 1))
  {
    hide Live, Canonical, Exclusive, OneHoldingPerPath, Next, Kept, Numbered;
    LiveMeaning(w.table.leases, e.now);
    StepHasEffect(w, e, limit, x, reply);
    StoredIds(w, limit);
    GrantedFor(w.table, e, limit, x.table, reply);
    if e.op.Acquire? {
      AcquireGrants(w.table, e, limit, x.table, reply);
    }
  }

  lemma StoredIds(w: World, limit: nat)
    requires Inv(w, limit)
    ensures forall id | id in w.table.leases :: w.table.leases[id].id == id
  {
    hide Canonical, Exclusive, OneHoldingPerPath, Kept;
  }

  lemma GrantedFor(t: Table, e: Event, limit: nat, u: Table, reply: Reply)
    requires Next(t, e, limit, u, reply) && reply.Granted?
    requires forall id | id in t.leases :: t.leases[id].id == id
    ensures e.op.Renew? || e.op.Acquire?
    ensures reply.lease.deadline == e.now + e.op.ttl && reply.lease.told == e.wall + e.op.ttl
    ensures e.op.Renew? ==>
        && e.op.id in Live(t.leases, e.now)
        && reply.lease == Live(t.leases, e.now)[e.op.id].(deadline := reply.lease.deadline, told := reply.lease.told)
  {
    hide Live, Blocks, OwnHolding;
    LiveMeaning(t.leases, e.now);
  }

  /** A request touches the lease it grants or releases, and drops what has expired; all others stay. */
  lemma OthersStay(w: World, e: Event, limit: nat, x: World, reply: Reply, id: nat)
    requires Inv(w, limit) && Step(w, e, limit, x, reply)
    requires !((reply.Granted? || reply.Released?) && reply.lease.id == id)
    ensures id in x.table.leases <==> LiveIn(w, id, e.now)
    ensures id in x.table.leases ==> x.table.leases[id] == w.table.leases[id]
    ensures id in x.grants <==> id in w.grants
    ensures id in x.grants ==> x.grants[id] == w.grants[id]
  {
    hide Live, Canonical, Next, Exclusive, OneHoldingPerPath, Kept, Numbered;
    LiveMeaning(w.table.leases, e.now);
    StepHasEffect(w, e, limit, x, reply);
  }

  /** The reply grants or releases the lease `id`. */
  predicate Touches(reply: Reply, id: nat) { (reply.Granted? || reply.Released?) && reply.lease.id == id }

  /** A lease just granted is stored, and a lease just released is not. */
  lemma JustAnswered(w: World, e: Event, limit: nat, x: World, reply: Reply)
    requires Inv(w, limit) && Step(w, e, limit, x, reply)
    ensures reply.Granted? ==>
        && reply.lease.id in x.table.leases && x.table.leases[reply.lease.id] == reply.lease
        && reply.lease.id in x.grants && x.grants[reply.lease.id] == Grant(reply.lease, false)
    ensures reply.Released? ==>
        && e.op.Release? && reply.lease.id == e.op.id && reply.lease.id !in x.table.leases
        && reply.lease.id in x.grants && x.grants[reply.lease.id] == Grant(reply.lease, true)
  {
    hide Live, Canonical, Next, Exclusive, OneHoldingPerPath, Kept, Numbered;
    StepHasEffect(w, e, limit, x, reply);
  }

  /** Until somebody touches it again, a grant stays what it was. */
  lemma {:induction false} GrantStays(
    ws: seq<World>, es: seq<Event>, rs: seq<Reply>, limit: nat, k: nat, i: nat)
    requires Run(ws, es, rs, limit) && k < i < |ws| && (rs[k].Granted? || rs[k].Released?)
    requires forall j | k < j < i :: !Touches(rs[j], rs[k].lease.id)
    ensures rs[k].lease.id in ws[i].grants
    ensures ws[i].grants[rs[k].lease.id] == Grant(rs[k].lease, rs[k].Released?)
    ensures rs[k].Released? ==> rs[k].lease.id !in ws[i].table.leases
  {
    hide Step, Inv;
    RunKeepsInv(ws, es, rs, limit, i - 1);
    if i == k + 1 {
      JustAnswered(ws[k], es[k], limit, ws[i], rs[k]);
    } else {
      GrantStays(ws, es, rs, limit, k, i - 1);
      OthersStay(ws[i - 1], es[i - 1], limit, ws[i], rs[i - 1], rs[k].lease.id);
    }
  }

  /**
   * In every run, a lease granted by the request `k` for `ttl` is stored, and nobody else holds a path it
   * covers, while the clock is below the time the request read plus `ttl`; every request that reads
   * the clock from then on finds it gone. Only a renewal or release of it changes that, or its
   * owner's acquisition of the same path.
   */
  lemma GrantLastsItsTime(
    ws: seq<World>, es: seq<Event>, rs: seq<Reply>, limit: nat, k: nat, i: nat, other: nat, file: string)
    requires Run(ws, es, rs, limit) && k < i < |ws| && rs[k].Granted?
    requires forall j | k < j < i :: !Touches(rs[j], rs[k].lease.id)
    ensures es[k].op.Acquire? || es[k].op.Renew?
    ensures var l, w, end := rs[k].lease, ws[i], es[k].now + es[k].op.ttl;
      && (w.clock < end ==> l.id in w.table.leases && w.table.leases[l.id] == l)
      && (w.clock < end && other in w.table.leases && Canonical(file)
            && w.table.leases[other].repository == l.repository && Covers(l.path, l.recursive, file)
            && Covers(w.table.leases[other].path, w.table.leases[other].recursive, file)
          ==> w.table.leases[other].agent == l.agent)
      && (i < |es| && es[i].now >= end ==> l.id !in ws[i + 1].table.leases && !Touches(rs[i], l.id))
  {
    RunKeepsInv(ws, es, rs, limit, k);
    RunKeepsInv(ws, es, rs, limit, i);
    GrantTerms(ws[k], es[k], limit, ws[k + 1], rs[k]);
    var l, w, end := rs[k].lease, ws[i], es[k].now + es[k].op.ttl;
    GrantStays(ws, es, rs, limit, k, i);
    hide Covers, Canonical, Inv;
    if w.clock < end {
      StoredGrant(w, limit, l.id);
      if other in w.table.leases && Canonical(file) && w.table.leases[other].repository == l.repository
        && Covers(l.path, l.recursive, file)
        && Covers(w.table.leases[other].path, w.table.leases[other].recursive, file)
      {
        StoredAreGrants(w, limit);
        MutualExclusion(ws, es, rs, limit, i, file, w.clock, l.id, other);
      }
    }
    if i < |es| && es[i].now >= end {
      ExpiredIsGone(w, es[i], limit, ws[i + 1], rs[i], l.id);
    }
  }

  lemma StoredGrant(w: World, limit: nat, id: nat)
    requires Inv(w, limit) && id in w.grants && !w.grants[id].released && w.clock < w.grants[id].lease.deadline
    ensures id in w.table.leases && w.table.leases[id] == w.grants[id].lease
  {
    hide Canonical, Exclusive, OneHoldingPerPath, Numbered;
  }

  lemma StoredAreGrants(w: World, limit: nat)
    requires Inv(w, limit)
    ensures forall id | id in w.table.leases :: id in w.grants && w.grants[id].lease == w.table.leases[id]
  {
    hide Canonical, Exclusive, OneHoldingPerPath, Numbered, Kept;
  }

  lemma ExpiredIsGone(w: World, e: Event, limit: nat, x: World, reply: Reply, id: nat)
    requires Inv(w, limit) && Step(w, e, limit, x, reply)
    requires id in w.grants && w.grants[id].lease.deadline <= e.now
    ensures id !in x.table.leases && !Touches(reply, id)
  {
    hide Live, Canonical, Next, Exclusive, OneHoldingPerPath, Kept, Numbered;
    LiveMeaning(w.table.leases, e.now);
    StepHasEffect(w, e, limit, x, reply);
  }

  /** The stored lease answers the lookup: the repository, the scope and the agent, where they are given. */
  ghost predicate Answers(l: Lease, op: Op)
    requires op.Lookup?
  {
    && (op.inRepository == None || op.inRepository == Some(l.repository))
    && (op.heldBy == None || op.heldBy == Some(l.agent))
    && (op.query.Some? ==>
          exists file :: Canonical(file) && Covers(l.path, l.recursive, file) && Covers(op.query.value, op.below, file))
  }

  /** A lookup returns exactly the unexpired stored leases that answer it. */
  lemma LookupAnswers(w: World, e: Event, limit: nat, x: World, reply: Reply)
    requires Inv(w, limit) && Step(w, e, limit, x, reply)
    ensures e.op.Lookup? && (e.op.query.Some? ==> Canonical(e.op.query.value)) ==>
        && reply.Found?
        && forall l: Lease :: l in reply.holders <==>
            LiveIn(w, l.id, e.now) && w.table.leases[l.id] == l && Answers(l, e.op)
  {
    if e.op.Lookup? && (e.op.query.Some? ==> Canonical(e.op.query.value)) {
      hide Covers, ScopesOverlap, Canonical, Exclusive, OneHoldingPerPath, Live, Matches, Answers, Next;
      LiveMeaning(w.table.leases, e.now);
      LookupFinds(w.table, e, limit, x.table, reply);
      forall l: Lease | LiveIn(w, l.id, e.now) && w.table.leases[l.id] == l
        ensures Matches(l, e.op) <==> Answers(l, e.op)
      {
        MatchesMeansAnswers(w, limit, l, e.op);
      }
    }
  }

  lemma LookupFinds(t: Table, e: Event, limit: nat, u: Table, reply: Reply)
    requires Next(t, e, limit, u, reply) && e.op.Lookup?
    requires forall id | id in t.leases :: t.leases[id].id == id
    ensures reply.Found?
    ensures forall l: Lease :: l in reply.holders <==>
        l.id in Live(t.leases, e.now) && Live(t.leases, e.now)[l.id] == l && Matches(l, e.op)
  {
    hide Matches, Live;
    LiveMeaning(t.leases, e.now);
    var live := Live(t.leases, e.now);
    forall l: Lease | l.id in live && live[l.id] == l && Matches(l, e.op)
      ensures l in reply.holders
    {
      assert live[l.id] in reply.holders;
    }
  }

  lemma MatchesMeansAnswers(w: World, limit: nat, l: Lease, op: Op)
    requires Inv(w, limit) && op.Lookup? && (op.query.Some? ==> Canonical(op.query.value))
    requires l.id in w.table.leases && w.table.leases[l.id] == l
    ensures Matches(l, op) <==> Answers(l, op)
  {
    hide Covers, ScopesOverlap, Canonical, Exclusive, OneHoldingPerPath, Kept;
    assert Canonical(l.path);
    if op.query.Some? {
      OverlapMeansSharedPath(l.path, l.recursive, op.query.value, op.below);
    }
  }

  /** Looking up a path returns exactly the unexpired stored leases that cover it. */
  lemma LookupFindsHolders(w: World, e: Event, limit: nat, x: World, reply: Reply, repository: string, file: string)
    requires Inv(w, limit) && Step(w, e, limit, x, reply)
    requires e.op == Lookup(Some(repository), Some(file), None, false) && Canonical(file)
    ensures reply.Found?
    ensures forall l: Lease :: l in reply.holders <==>
        && l.id in w.table.leases && w.table.leases[l.id] == l
        && l.deadline > e.now && l.repository == repository && Covers(l.path, l.recursive, file)
  {
    hide Covers, ScopesOverlap, Canonical, Exclusive, OneHoldingPerPath;
    var live := Live(w.table.leases, e.now);
    forall l: Lease
      ensures l in reply.holders <==> l.id in live && live[l.id] == l && Matches(l, e.op)
    {
      if l.id in live && live[l.id] == l && Matches(l, e.op) {
        assert live[l.id] in reply.holders;
      }
    }
    forall l: Lease | l.id in w.table.leases && w.table.leases[l.id] == l
      ensures ScopesOverlap(l.path, l.recursive, file, false) <==> Covers(l.path, l.recursive, file)
    {
      LookupMeansCovering(l.path, l.recursive, file);
    }
  }

  /** Some path would be covered by the lease and by the requested scope. */
  ghost predicate SharesPath(l: Lease, op: Op)
    requires op.Acquire?
  {
    exists file :: Canonical(file) && Covers(l.path, l.recursive, file) && Covers(op.path, op.recursive, file)
  }

  /** An acquisition is turned down for conflict exactly when it would share a path with another agent's live lease. */
  lemma ConflictMeansSharedPath(w: World, e: Event, limit: nat, x: World, reply: Reply)
    requires Inv(w, limit) && Step(w, e, limit, x, reply)
    ensures e.op.Acquire? ==>
        (reply.Conflict? <==>
          exists id | id in w.table.leases ::
            && w.table.leases[id].deadline > e.now
            && w.table.leases[id].repository == e.op.repository && w.table.leases[id].agent != e.op.agent
            && SharesPath(w.table.leases[id], e.op))
  {
    if e.op.Acquire? {
      hide ScopesOverlap, Canonical, Covers, Inv, Next;
      var live := Live(w.table.leases, e.now);
      ConflictMeansBlocked(w.table, e, limit, x.table, reply);
      forall k | k in live
        ensures Blocks(live[k], e.op)
          <==> live[k].repository == e.op.repository && live[k].agent != e.op.agent && SharesPath(live[k], e.op)
      {
        BlocksMeansShares(w, e, limit, k);
      }
      if reply.Conflict? {
        var k :| k in live && Blocks(live[k], e.op);
        assert k in w.table.leases;
      }
      forall id | id in w.table.leases && w.table.leases[id].deadline > e.now
        ensures id in live && live[id] == w.table.leases[id]
      {
      }
    }
  }

  lemma ConflictMeansBlocked(t: Table, e: Event, limit: nat, u: Table, reply: Reply)
    requires Next(t, e, limit, u, reply) && e.op.Acquire?
    ensures reply.Conflict? <==> exists k | k in Live(t.leases, e.now) :: Blocks(Live(t.leases, e.now)[k], e.op)
  {
    hide Blocks, OwnHolding;
  }

  lemma BlocksMeansShares(w: World, e: Event, limit: nat, id: nat)
    requires Inv(w, limit) && Admissible(w, e) && e.op.Acquire? && id in w.table.leases
    ensures var l := w.table.leases[id];
      Blocks(l, e.op) <==> l.repository == e.op.repository && l.agent != e.op.agent && SharesPath(l, e.op)
  {
    hide ScopesOverlap, Canonical, Covers, Exclusive, OneHoldingPerPath, Kept;
    var l := w.table.leases[id];
    assert Canonical(l.path);
    OverlapMeansSharedPath(l.path, l.recursive, e.op.path, e.op.recursive);
  }

  // ---- the expiry the client is told ----------------------------------------------------------------

  /** A grant's reported expiry is its real deadline exactly when the lock was obtained at once. */
  lemma ToldIsDeadlineIffPrompt(w: World, e: Event, limit: nat, x: World, reply: Reply)
    requires Step(w, e, limit, x, reply) && reply.Granted?
    ensures reply.lease.told - reply.lease.deadline == e.wall - e.now
    ensures reply.lease.told == reply.lease.deadline <==> e.now == e.wall
  {
  }

  /**
   * In every run, a grant that was obtained at once and not released is stored while the clock is
   * below the expiry its holder was told, and nobody else holds a path it covers.
   */
  lemma PromptGrantIsProtected(
    ws: seq<World>, es: seq<Event>, rs: seq<Reply>, limit: nat, i: nat, id: nat, other: nat, file: string)
    requires Run(ws, es, rs, limit) && i < |ws| && id in ws[i].grants
    requires var g := ws[i].grants[id];
      !g.released && g.lease.told == g.lease.deadline && ws[i].clock < g.lease.told
    ensures id in ws[i].table.leases && ws[i].table.leases[id] == ws[i].grants[id].lease
    ensures other in ws[i].table.leases && Canonical(file)
        && ws[i].table.leases[other].repository == ws[i].table.leases[id].repository
        && Covers(ws[i].table.leases[id].path, ws[i].table.leases[id].recursive, file)
        && Covers(ws[i].table.leases[other].path, ws[i].table.leases[other].recursive, file)
        ==> ws[i].table.leases[other].agent == ws[i].table.leases[id].agent
  {
    hide Covers, Canonical, ScopesOverlap, Step, Exclusive, OneHoldingPerPath, Numbered;
    RunKeepsInv(ws, es, rs, limit, i);
    var w := ws[i];
    if other in w.table.leases && Canonical(file) && w.table.leases[other].repository == w.table.leases[id].repository
      && Covers(w.table.leases[id].path, w.table.leases[id].recursive, file)
      && Covers(w.table.leases[other].path, w.table.leases[other].recursive, file)
    {
      MutualExclusion(ws, es, rs, limit, i, file, w.clock, id, other);
    }
  }

  /** A request that waits for the lock is told an expiry up to which it is not protected. */
  lemma ToldExpiryNotProtected()
    ensures var x := Op.Acquire(1, "r", "f", false, "x", 100);
      var y := Op.Acquire(2, "r", "f", false, "y", 100);
      exists ws: seq<World>, rs: seq<Reply> :: Run(ws, [Event(x, 0, 5), Event(y, 102, 102)], rs, 10)
        && rs[0].Granted? && rs[1].Granted? && rs[0].lease.told > ws[2].clock && rs[1].lease.told > ws[2].clock
        && rs[0].lease.path == rs[1].lease.path && rs[0].lease.agent != rs[1].lease.agent
  {
    var first := Lease(1, "r", "f", false, "x", 1, 100, 105);
    var second := Lease(2, "r", "f", false, "y", 2, 202, 202);
    var e0 := Event(Op.Acquire(1, "r", "f", false, "x", 100), 0, 5);
    var e1 := Event(Op.Acquire(2, "r", "f", false, "y", 100), 102, 102);
    var w1 := World(Table(map[1 := first], 1), 5, map[1 := Grant(first, false)], [1]);
    var w2 := World(
      Table(map[2 := second], 2), 102, map[1 := Grant(first, false), 2 := Grant(second, false)], [1, 2]);
    assert Live(map[], 0) == map[] && Live(map[1 := first], 102) == map[];
    CanonicalF();
    assert Next(INITIAL.table, e0, 10, w1.table, Granted(first));
    assert Next(w1.table, e1, 10, w2.table, Granted(second));
    assert w1 == Record(INITIAL, w1.table, 5, Granted(first));
    assert w2 == Record(w1, w2.table, 102, Granted(second));
    var ws, es, rs := [INITIAL, w1, w2], [e0, e1], [Granted(first), Granted(second)];
    assert Run(ws, es, rs, 10);
  }

  lemma CanonicalF()
    ensures Canonical("f")
  {
    assert Components("f") == ["f"] by { SplitFree("f", '/'); }
  }
}
