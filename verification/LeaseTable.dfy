/** The lease endpoints of the bridge state, updating their table in place. */
module LeaseTables {
  import opened Prelude
  import opened Text
  import opened Paths
  import opened Leases

  const MIN_FILE_LEASE_TTL_MS := 100
  const MAX_FILE_LEASE_TTL_MS := 3_600_000

  datatype LeaseError =
    | BadRepository(repository: RepositoryError)
    | BadPath(path: PathError)
    | UnknownAgent
    | MetaTooLarge
    | BadTtl
    | Refused(reply: Reply)

  predicate ValidTtl(ttl: nat) { MIN_FILE_LEASE_TTL_MS <= ttl <= MAX_FILE_LEASE_TTL_MS }

  /** The checks an acquisition passes before it takes the lock, in order. */
  function CheckedAcquire(
    repository: string, path: string, agent: string, ttl: nat, recursive: bool, metaBytes: nat, freshId: nat,
    agents: set<string>, maxMetaBytes: nat): (r: Result<Op, LeaseError>)
    ensures r.Ok? ==> r.value.Acquire?
  {
    match NormalizeRepository(repository)
    case Err(e) => Err(BadRepository(e))
    case Ok(repo) =>
      match Normalize(path)
      case Err(e) => Err(BadPath(e))
      case Ok(canonical) =>
        if Trim(agent) !in agents then Err(UnknownAgent)
        else if metaBytes > maxMetaBytes then Err(MetaTooLarge)
        else if !ValidTtl(ttl) then Err(BadTtl)
        else Ok(Acquire(freshId, repo, canonical, recursive, Trim(agent), ttl))
  }

  /** The first of an acquisition's five checks that fails is the one reported; what passes is normalised. */
  lemma ChecksMean(
    repository: string, path: string, agent: string, ttl: nat, recursive: bool, metaBytes: nat, freshId: nat,
    agents: set<string>, maxMetaBytes: nat)
    ensures var r :=
        CheckedAcquire(repository, path, agent, ttl, recursive, metaBytes, freshId, agents, maxMetaBytes);
      var repo, canonical := NormalizeRepository(repository), Normalize(path);
      && (r.Err? && r.error.BadRepository? <==> repo.Err?)
      && (r.Err? && r.error.BadPath? <==> repo.Ok? && canonical.Err?)
      && (r == Err(UnknownAgent) <==> repo.Ok? && canonical.Ok? && Trim(agent) !in agents)
      && (r == Err(MetaTooLarge) <==>
            repo.Ok? && canonical.Ok? && Trim(agent) in agents && metaBytes > maxMetaBytes)
      && (r.Ok? <==>
            && repo.Ok? && canonical.Ok? && Trim(agent) in agents && metaBytes <= maxMetaBytes
            && 100 <= ttl <= 3_600_000)
      && (r.Ok? ==> r.value == Acquire(freshId, repo.value, canonical.value, recursive, Trim(agent), ttl))
  {
    hide Normalize, NormalizeRepository, Trim;
  }

  /** The reply a result stands for. */
  function ReplyOf(r: Result<Lease, LeaseError>, released: bool): Reply
    requires r.Err? ==> r.error.Refused?
  {
    match r
    case Ok(l) => if released then Released(l) else Granted(l)
    case Err(e) => e.reply
  }

  class LeaseTable {
    var leases: map<nat, Lease>
    var lastToken: nat
    const agents: set<string>
    const maxLeases: nat
    const maxMetaBytes: nat

    ghost predicate Valid()
      reads this
    {
      forall id | id in leases :: leases[id].id == id && leases[id].agent in agents
    }

    ghost function State(): Table
      reads this
    {
      Table(leases, lastToken)
    }

    constructor (agents: set<string>, maxLeases: nat, maxMetaBytes: nat)
      ensures Valid() && State() == INITIAL.table
      ensures this.agents == agents && this.maxLeases == maxLeases && this.maxMetaBytes == maxMetaBytes
    {
      leases, lastToken := map[], 0;
      this.agents, this.maxLeases, this.maxMetaBytes := agents, maxLeases, maxMetaBytes;
    }

    method AcquireFileLease(
      repository: string, path: string, agent: string, ttl: nat, recursive: bool, metaBytes: nat, freshId: nat,
      now: nat, wall: nat) returns (r: Result<Lease, LeaseError>)
      requires Valid() && freshId !in leases
      modifies this
      ensures Valid()
      ensures var checked :=
          CheckedAcquire(repository, path, agent, ttl, recursive, metaBytes, freshId, agents, maxMetaBytes);
        match checked
        case Err(e) => r == Err(e) && State() == old(State())
        case Ok(op) =>
          (r.Err? ==> r.error.Refused?)
          && Next(old(State()), Event(op, now, wall), maxLeases, State(), ReplyOf(r, false))
    {
      hide Normalize, NormalizeRepository, ScopesOverlap, Next, Trim;
      var repo := NormalizeRepository(repository);
      if repo.Err? {
        return Err(BadRepository(repo.error));
      }
      var canonical := NormalizeFilePath(path);
      if canonical.Err? {
        return Err(BadPath(canonical.error));
      }
      var key := Trim(agent);
      if key !in agents {
        return Err(UnknownAgent);
      }
      if metaBytes > maxMetaBytes {
        return Err(MetaTooLarge);
      }
      if !ValidTtl(ttl) {
        return Err(BadTtl);
      }
      r := AcquireLocked(Acquire(freshId, repo.value, canonical.value, recursive, key, ttl), now, wall);
    }

    /** The part of an acquisition done under the lock. */
    method AcquireLocked(op: Op, now: nat, wall: nat) returns (r: Result<Lease, LeaseError>)
      requires Valid() && op.Acquire? && op.freshId !in leases && op.agent in agents
      modifies this
      ensures Valid()
      ensures r.Err? ==> r.error.Refused?
      ensures Next(old(State()), Event(op, now, wall), maxLeases, State(), ReplyOf(r, false))
    {
      hide ScopesOverlap, Live, Next, Blocks, OwnHolding;
      ghost var t, e := State(), Event(op, now, wall);
      LiveMeaning(leases, now);
      leases := Live(leases, now);
      if k :| k in leases && Blocks(leases[k], op) {
        AcquireEnds(t, e, maxLeases, k);
        return Err(Refused(Conflict(leases[k].agent)));
      }
      if k :| k in leases && OwnHolding(leases[k], op) {
        AcquireEnds(t, e, maxLeases, k);
        var renewed := leases[k].(recursive := op.recursive, deadline := now + op.ttl, told := wall + op.ttl);
        leases := leases[k := renewed];
        return Ok(renewed);
      }
      AcquireEnds(t, e, maxLeases, op.freshId);
      if |leases| >= maxLeases {
        return Err(Refused(Full));
      }
      lastToken := lastToken + 1;
      var lease :=
        Lease(op.freshId, op.repository, op.path, op.recursive, op.agent, lastToken, now + op.ttl, wall + op.ttl);
      leases := leases[op.freshId := lease];
      return Ok(lease);
    }

    method RenewFileLease(id: nat, agent: string, token: nat, ttl: nat, now: nat, wall: nat)
      returns (r: Result<Lease, LeaseError>)
      requires Valid()
      modifies this
      ensures Valid()
      ensures if !ValidTtl(ttl) then r == Err(BadTtl) && State() == old(State())
        else
          && (r.Err? ==> r.error.Refused?)
          && Next(
              old(State()), Event(Renew(id, Trim(agent), token, ttl), now, wall), maxLeases, State(), ReplyOf(r, false))
    {
      if !ValidTtl(ttl) {
        return Err(BadTtl);
      }
      leases := Live(leases, now);
      if id !in leases {
        return Err(Refused(NotFound));
      }
      var lease := leases[id];
      if lease.agent != Trim(agent) {
        return Err(Refused(OwnerMismatch));
      }
      if lease.token != token {
        return Err(Refused(StaleToken));
      }
      leases := leases[id := lease.(deadline := now + ttl, told := wall + ttl)];
      return Ok(leases[id]);
    }

    method ReleaseFileLease(id: nat, agent: string, token: nat, now: nat, wall: nat)
      returns (r: Result<Lease, LeaseError>)
      requires Valid()
      modifies this
      ensures Valid()
      ensures r.Err? ==> r.error.Refused?
      ensures Next(
          old(State()), Event(Release(id, Trim(agent), token), now, wall), maxLeases, State(), ReplyOf(r, true))
    {
      leases := Live(leases, now);
      if id !in leases {
        return Err(Refused(NotFound));
      }
      var lease := leases[id];
      if lease.agent != Trim(agent) {
        return Err(Refused(OwnerMismatch));
      }
      if lease.token != token {
        return Err(Refused(StaleToken));
      }
      leases := leases - {id};
      return Ok(lease);
    }

    method FileLeaseHolders(
      repository: Option<string>, path: Option<string>, agent: Option<string>, below: bool, now: nat, wall: nat)
      returns (r: Result<set<Lease>, LeaseError>)
      requires Valid()
      modifies this
      ensures Valid()
      ensures
        if repository.Some? && NormalizeRepository(repository.value).Err? then
          r == Err(BadRepository(NormalizeRepository(repository.value).error)) && State() == old(State())
        else if path.Some? && Normalize(path.value).Err? then
          r == Err(BadPath(Normalize(path.value).error)) && State() == old(State())
        else
          var repo := if repository.Some? then Some(NormalizeRepository(repository.value).value) else None;
          var query := if path.Some? then Some(Normalize(path.value).value) else None;
          r.Ok? && Next(
            old(State()), Event(Lookup(repo, query, agent, below), now, wall), maxLeases, State(), Found(r.value))
    {
      hide Normalize, NormalizeRepository, ScopesOverlap;
      var repo: Option<string> := None;
      if repository.Some? {
        var normalized := NormalizeRepository(repository.value);
        if normalized.Err? {
          return Err(BadRepository(normalized.error));
        }
        repo := Some(normalized.value);
      }
      var query: Option<string> := None;
      if path.Some? {
        var normalized := NormalizeFilePath(path.value);
        if normalized.Err? {
          return Err(BadPath(normalized.error));
        }
        query := Some(normalized.value);
      }
      leases := Live(leases, now);
      var op := Lookup(repo, query, agent, below);
      // only leases of registered agents are listed, and every holder is registered
      return Ok(set k | k in leases && Matches(leases[k], op) && leases[k].agent in agents :: leases[k]);
    }
  }
}
