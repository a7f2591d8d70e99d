/** Workflow plans: candidates, assignments, whose turn it is, and the reported status. */
module WorkflowPlans {
  import opened Prelude
  import opened WorkflowModes
  import opened Text

  const MAX_ASSIGNMENTS := 30

  datatype AssignmentRole = Worker | Reviewer

  datatype Assignment = Assignment(ordinal: nat, agent: string, role: AssignmentRole, phase: nat)

  datatype Plan = Plan(mode: Mode, assignments: seq<Assignment>)

  datatype PlanError =
    | AgentKeyRequired
    | AgentKeyTooLong
    | AgentNotFound(key: string)
    | MissingCapabilities(agent: string)
    | NoMatch
    | SingleNeedsOneWorker
    | TooFewWorkers(minimum: nat)
    | TooManyAssignments
    | TooFewCandidates
    | NoReviewerCandidate
    | ReviewerIsWorker

  // ---- candidates ----------------------------------------------------------------------------

  datatype Agent = Agent(key: string, kind: nat, human: bool, capabilities: set<string>)

  function NormalizeAgentKey(value: string): Result<string, PlanError> {
    var key := Trim(value);
    if key == "" then Err(AgentKeyRequired) else if Utf8Len(key) > 120 then Err(AgentKeyTooLong) else Ok(key)
  }

  ghost predicate DistinctAgents(s: seq<Agent>) {
    forall i, j | 0 <= i < j < |s| :: s[i].key != s[j].key
  }

  /** `order` lists the keys of the registry, each once; the source iterates in key order. */
  ghost predicate Enumerates(order: seq<string>, agents: map<string, Agent>) {
    && (forall k :: k in order <==> k in agents)
    && (forall i, j | 0 <= i < j < |order| :: order[i] != order[j])
    && (forall k | k in agents :: agents[k].key == k)
  }

  /** An agent a filtered selection takes. */
  predicate Fits(a: Agent, kinds: seq<nat>, required: set<string>) {
    !a.human && (kinds == [] || a.kind in kinds) && required <= a.capabilities
  }

  /** What is wrong with a requested key, if anything. */
  function Fault(agents: map<string, Agent>, requested: string, required: set<string>): Option<PlanError> {
    match NormalizeAgentKey(requested)
    case Err(e) => Some(e)
    case Ok(key) =>
      if key !in agents then Some(AgentNotFound(key))
      else if !(required <= agents[key].capabilities) then Some(MissingCapabilities(key))
      else None
  }

  /** The trimmed keys of a request, each where it first occurs. */
  function Firsts(requested: seq<string>): seq<string> {
    if requested == [] then []
    else
      var before, key := Firsts(requested[..|requested| - 1]), Trim(requested[|requested| - 1]);
      if key in before then before else before + [key]
  }

  /** The keys, in the given order, of the agents that fit. */
  function Fitting(agents: map<string, Agent>, order: seq<string>, kinds: seq<nat>, required: set<string>): seq<string>
  {
    if order == [] then []
    else
      var before, key := Fitting(agents, order[..|order| - 1], kinds, required), order[|order| - 1];
      if key in agents && Fits(agents[key], kinds, required) then before + [key] else before
  }

  /** The agents of a sequence of keys, one by one. */
  ghost predicate AreAgents(agents: map<string, Agent>, keys: seq<string>, s: seq<Agent>) {
    |s| == |keys| && forall i | 0 <= i < |keys| :: keys[i] in agents && s[i] == agents[keys[i]]
  }

  /**
   * `select_candidates`: the requested agents in the order they are first requested, or else all that
   * fit the filters in registry order; the error is that of the first requested key with a fault.
   */
  method SelectCandidates(
    agents: map<string, Agent>, order: seq<string>, requestedKeys: seq<string>, kinds: seq<nat>, required: set<string>)
    returns (r: Result<seq<Agent>, PlanError>)
    requires Enumerates(order, agents)
    ensures requestedKeys != [] ==>
        (r.Ok? <==> forall i | 0 <= i < |requestedKeys| :: Fault(agents, requestedKeys[i], required).None?)
    ensures requestedKeys != [] && r.Ok? ==> AreAgents(agents, Firsts(requestedKeys), r.value)
    ensures requestedKeys != [] && r.Err? ==>
        exists i | 0 <= i < |requestedKeys| ::
          && Fault(agents, requestedKeys[i], required) == Some(r.error)
          && forall j | 0 <= j < i :: Fault(agents, requestedKeys[j], required).None?
    ensures requestedKeys == [] ==> (r.Ok? <==> exists k | k in agents :: Fits(agents[k], kinds, required))
    ensures requestedKeys == [] && r.Ok? ==> AreAgents(agents, Fitting(agents, order, kinds, required), r.value)
    ensures requestedKeys == [] && r.Err? ==> r.error == NoMatch
    ensures r.Ok? ==> r.value != [] && DistinctAgents(r.value)
  {
    hide Fault, Firsts, Fitting, Fits;
    if requestedKeys != [] {
      r := SelectRequested(agents, requestedKeys, required);
      FirstsLaws(requestedKeys);
    } else {
      var selected := SelectFitting(agents, order, kinds, required);
      FittingLaws(agents, order, kinds, required);
      if selected == [] {
        return Err(NoMatch);
      }
      r := Ok(selected);
    }
  }

  method SelectRequested(agents: map<string, Agent>, requestedKeys: seq<string>, required: set<string>)
    returns (r: Result<seq<Agent>, PlanError>)
    ensures r.Ok? <==> forall i | 0 <= i < |requestedKeys| :: Fault(agents, requestedKeys[i], required).None?
    ensures r.Ok? ==> AreAgents(agents, Firsts(requestedKeys), r.value)
    ensures r.Err? ==>
        exists i | 0 <= i < |requestedKeys| ::
          && Fault(agents, requestedKeys[i], required) == Some(r.error)
          && forall j | 0 <= j < i :: Fault(agents, requestedKeys[j], required).None?
  {
    hide Trim, Utf8Len;
    var selected: seq<Agent> := [];
    var seen: set<string> := {};
    for i := 0 to |requestedKeys|
      invariant forall j | 0 <= j < i :: Fault(agents, requestedKeys[j], required).None?
      invariant AreAgents(agents, Firsts(requestedKeys[..i]), selected)
      invariant forall k :: k in seen <==> k in Firsts(requestedKeys[..i])
      invariant forall k | k in seen :: k in agents && required <= agents[k].capabilities
    {
      assert requestedKeys[..i + 1][..i] == requestedKeys[..i];
      var normalized := NormalizeAgentKey(requestedKeys[i]);
      if normalized.Err? {
        assert Fault(agents, requestedKeys[i], required) == Some(normalized.error);
        return Err(normalized.error);
      }
      var key := normalized.value;
      if key in seen {
        continue;
      }
      if key !in agents {
        assert Fault(agents, requestedKeys[i], required) == Some(AgentNotFound(key));
        return Err(AgentNotFound(key));
      }
      if !(required <= agents[key].capabilities) {
        assert Fault(agents, requestedKeys[i], required) == Some(MissingCapabilities(key));
        return Err(MissingCapabilities(key));
      }
      selected := selected + [agents[key]];
      seen := seen + {key};
    }
    assert requestedKeys[..|requestedKeys|] == requestedKeys;
    return Ok(selected);
  }

  method SelectFitting(agents: map<string, Agent>, order: seq<string>, kinds: seq<nat>, required: set<string>)
    returns (selected: seq<Agent>)
    requires forall k | k in order :: k in agents
    ensures AreAgents(agents, Fitting(agents, order, kinds, required), selected)
  {
    selected := [];
    for i := 0 to |order|
      invariant AreAgents(agents, Fitting(agents, order[..i], kinds, required), selected)
    {
      assert order[..i + 1][..i] == order[..i];
      assert order[i] in order;
      if Fits(agents[order[i]], kinds, required) {
        selected := selected + [agents[order[i]]];
      }
    }
    assert order[..|order|] == order;
  }

  lemma {:induction false} FirstsLaws(requested: seq<string>)
    ensures forall i, j | 0 <= i < j < |Firsts(requested)| :: Firsts(requested)[i] != Firsts(requested)[j]
    ensures requested != [] ==> Firsts(requested) != []
  {
    hide Trim;
    if requested != [] {
      FirstsLaws(requested[..|requested| - 1]);
    }
  }

  lemma {:induction false} FittingLaws(
    agents: map<string, Agent>, order: seq<string>, kinds: seq<nat>, required: set<string>)
    requires forall i, j | 0 <= i < j < |order| :: order[i] != order[j]
    ensures var keys := Fitting(agents, order, kinds, required);
      && (forall k :: k in keys <==> k in order && k in agents && Fits(agents[k], kinds, required))
      && (forall i, j | 0 <= i < j < |keys| :: keys[i] != keys[j])
      && (keys != [] ==> keys[0] in keys)
  {
    hide Fits;
    if order != [] {
      var n := |order| - 1;
      FittingLaws(agents, order[..n], kinds, required);
      var before := Fitting(agents, order[..n], kinds, required);
      assert forall k :: k in order <==> k in order[..n] || k == order[n];
      assert order[n] !in order[..n];
      assert forall i | 0 <= i < |before| :: before[i] in before;
    }
  }

  /** Whether a requested key is usable, and what is said of it if not, in this order. */
  lemma FaultMeans(agents: map<string, Agent>, requested: string, required: set<string>)
    ensures var key, e := Trim(requested), Fault(agents, requested, required);
      && (e == Some(AgentKeyRequired) <==> key == "")
      && (e == Some(AgentKeyTooLong) <==> key != "" && Utf8Len(key) >= 121)
      && (e == Some(AgentNotFound(key)) <==> key != "" && Utf8Len(key) < 121 && key !in agents)
      && (e == Some(MissingCapabilities(key)) <==>
            && key != "" && Utf8Len(key) < 121 && key in agents
            && exists c | c in required :: c !in agents[key].capabilities)
      && (e.None? <==>
            && key != "" && Utf8Len(key) < 121 && key in agents
            && forall c | c in required :: c in agents[key].capabilities)
  {
    hide Trim, Utf8Len;
  }

  /** Without requested keys: everybody but humans, of the kinds asked for if any, with the capabilities. */
  lemma FitsMeans(a: Agent, kinds: seq<nat>, required: set<string>)
    ensures Fits(a, kinds, required) <==>
        && !a.human
        && (kinds != [] ==> exists i | 0 <= i < |kinds| :: kinds[i] == a.kind)
        && forall c | c in required :: c in a.capabilities
  {
  }

  /** The requested keys come in the order in which they first occur, each once. */
  lemma {:induction false} FirstsMeans(requested: seq<string>, i: nat)
    requires i < |Firsts(requested)|
    ensures exists j | 0 <= j < |requested| ::
        Trim(requested[j]) == Firsts(requested)[i]
        && forall m | 0 <= m < j :: Trim(requested[m]) in Firsts(requested)[..i]
  {
    hide Trim;
    var n := |requested| - 1;
    var before := Firsts(requested[..n]);
    FirstsHold(requested[..n]);
    if i < |before| {
      FirstsMeans(requested[..n], i);
      var j :| 0 <= j < n && Trim(requested[..n][j]) == before[i]
        && forall m | 0 <= m < j :: Trim(requested[..n][m]) in before[..i];
      assert Firsts(requested)[..i] == before[..i];
      assert Trim(requested[j]) == Firsts(requested)[i];
      assert forall m | 0 <= m < j :: requested[..n][m] == requested[m];
    } else {
      assert Firsts(requested)[..i] == before;
      assert forall m | 0 <= m < n :: requested[..n][m] == requested[m];
      assert Trim(requested[n]) == Firsts(requested)[i];
    }
  }

  lemma {:induction false} FirstsHold(requested: seq<string>)
    ensures forall j | 0 <= j < |requested| :: Trim(requested[j]) in Firsts(requested)
  {
    hide Trim;
    if requested != [] {
      FirstsHold(requested[..|requested| - 1]);
      assert forall j | 0 <= j < |requested| - 1 :: requested[..|requested| - 1][j] == requested[j];
    }
  }

  /** The fitting agents come in registry order. */
  lemma {:induction false} FittingInOrder(
    agents: map<string, Agent>, order: seq<string>, kinds: seq<nat>, required: set<string>, i: nat, j: nat, p: nat,
    q: nat)
    requires forall a, b | 0 <= a < b < |order| :: order[a] != order[b]
    requires i < j < |Fitting(agents, order, kinds, required)| && p < |order| && q < |order|
    requires order[p] == Fitting(agents, order, kinds, required)[i]
    requires order[q] == Fitting(agents, order, kinds, required)[j]
    ensures p < q
  {
    hide Fits;
    var n := |order| - 1;
    FittingLaws(agents, order[..n], kinds, required);
    var before := Fitting(agents, order[..n], kinds, required);
    assert before[i] in before;
    if j < |before| {
      assert before[j] in before;
      assert p != n && q != n;
      FittingInOrder(agents, order[..n], kinds, required, i, j, p, q);
    } else {
      assert q == n;
      assert p != n;
    }
  }

  // ---- assignments -----------------------------------------------------------------------------

  function WorkerCount(requested: Option<nat>, default: nat, minimum: nat): Result<nat, PlanError> {
    var count := if requested.Some? then requested.value else default;
    if count < minimum then Err(TooFewWorkers(minimum))
    else if count > MAX_ASSIGNMENTS then Err(TooManyAssignments)
    else Ok(count)
  }

  /** The first `n` candidates as workers; sequential workers each get their own phase. */
  function Workers(candidates: seq<Agent>, n: nat, phased: bool): (r: seq<Assignment>)
    requires n <= |candidates|
    ensures |r| == n
    ensures forall i | 0 <= i < n :: r[i] == Assignment(i, candidates[i].key, Worker, if phased then i else 0)
  {
    seq(n, i requires 0 <= i < n => Assignment(i, candidates[i].key, Worker, if phased then i else 0))
  }

  method BuildWorkers(candidates: seq<Agent>, n: nat, phased: bool) returns (assignments: seq<Assignment>)
    requires n <= |candidates|
    ensures assignments == Workers(candidates, n, phased)
  {
    assignments := [];
    for ordinal := 0 to n
      invariant assignments == Workers(candidates, ordinal, phased)
    {
      var a := Assignment(ordinal, candidates[ordinal].key, Worker, if phased then ordinal else 0);
      assignments := assignments + [a];
    }
  }

  /** What `create_workflow` passes on: the named reviewer is taken out of the candidates. */
  ghost predicate Prepared(candidates: seq<Agent>, reviewer: Option<string>) {
    DistinctAgents(candidates) && (reviewer.Some? ==> forall a | a in candidates :: a.key != reviewer.value)
  }

  /** The assignments a mode gets from an ordered list of candidates. */
  function Assignments(mode: Mode, candidates: seq<Agent>, count: Option<nat>, reviewer: Option<string>):
    Result<seq<Assignment>, PlanError>
  {
    match mode
    case Single =>
      if count.Some? && count.value != 1 then Err(SingleNeedsOneWorker)
      else if candidates == [] then Err(TooFewCandidates)
      else Ok(Workers(candidates, 1, false))
    case Sequential =>
      (match WorkerCount(count, Min(|candidates|, 3), 1)
       case Err(e) => Err(e)
       case Ok(n) => if |candidates| < n then Err(TooFewCandidates) else Ok(Workers(candidates, n, true)))
    case Competitive =>
      (match WorkerCount(count, Min(|candidates|, 3), 2)
       case Err(e) => Err(e)
       case Ok(n) => if |candidates| < n then Err(TooFewCandidates) else Ok(Workers(candidates, n, false)))
    case Consensus =>
      match ReviewerFor(candidates, count, reviewer)
      case Err(e) => Err(e)
      case Ok(key) =>
        var most := if reviewer.Some? then |candidates| else SaturatingSub(|candidates|, 1);
        match WorkerCount(count, Min(most, 3), 2)
        case Err(e) => Err(e)
        case Ok(n) =>
          if |candidates| < n then Err(TooFewCandidates)
          else if exists i | 0 <= i < n :: candidates[i].key == key then Err(ReviewerIsWorker)
          else if n + 1 > MAX_ASSIGNMENTS then Err(TooManyAssignments)
          else Ok(Workers(candidates, n, false) + [Assignment(n, key, Reviewer, 1)])
  }

  function ReviewerFor(candidates: seq<Agent>, count: Option<nat>, reviewer: Option<string>): Result<string, PlanError>
  {
    if reviewer.Some? then Ok(reviewer.value)
    else if |candidates| < 3 then Err(TooFewCandidates)
    else
      var index := if count.Some? then count.value else Min(|candidates| - 1, 3);
      if index < |candidates| then Ok(candidates[index].key) else Err(NoReviewerCandidate)
  }

  /** `build_assignments`, with its loops over the candidates. */
  method BuildAssignments(mode: Mode, candidates: seq<Agent>, count: Option<nat>, reviewer: Option<string>)
    returns (r: Result<seq<Assignment>, PlanError>)
    ensures r == Assignments(mode, candidates, count, reviewer)
    ensures r.Ok? <==> Buildable(mode, candidates, count, reviewer)
    ensures r.Ok? && Prepared(candidates, reviewer) ==> WellFormed(Plan(mode, r.value))
  {
    AssignmentsWellFormed(mode, candidates, count, reviewer);
    PlanMeans(mode, candidates, count, reviewer);
    hide Buildable;
    match mode {
      case Single =>
        if count.Some? && count.value != 1 {
          return Err(SingleNeedsOneWorker);
        }
        if candidates == [] {
          return Err(TooFewCandidates);
        }
        var workers := BuildWorkers(candidates, 1, false);
        return Ok(workers);
      case Sequential =>
        var n := WorkerCount(count, Min(|candidates|, 3), 1);
        if n.Err? {
          return Err(n.error);
        }
        if |candidates| < n.value {
          return Err(TooFewCandidates);
        }
        var workers := BuildWorkers(candidates, n.value, true);
        return Ok(workers);
      case Competitive =>
        var n := WorkerCount(count, Min(|candidates|, 3), 2);
        if n.Err? {
          return Err(n.error);
        }
        if |candidates| < n.value {
          return Err(TooFewCandidates);
        }
        var workers := BuildWorkers(candidates, n.value, false);
        return Ok(workers);
      case Consensus =>
        var key := ReviewerFor(candidates, count, reviewer);
        if key.Err? {
          return Err(key.error);
        }
        var most := if reviewer.Some? then |candidates| else SaturatingSub(|candidates|, 1);
        var n := WorkerCount(count, Min(most, 3), 2);
        if n.Err? {
          return Err(n.error);
        }
        if |candidates| < n.value {
          return Err(TooFewCandidates);
        }
        var workers := BuildWorkers(candidates, n.value, false);
        for i := 0 to |workers|
          invariant forall j | 0 <= j < i :: candidates[j].key != key.value
        {
          if workers[i].agent == key.value {
            return Err(ReviewerIsWorker);
          }
        }
        workers := workers + [Assignment(|workers|, key.value, Reviewer, 1)];
        if |workers| > MAX_ASSIGNMENTS {
          return Err(TooManyAssignments);
        }
        return Ok(workers);
    }
  }

  /** The shape of every plan that can be built. */
  ghost predicate WellFormed(p: Plan) {
    var a := p.assignments;
    && 1 <= |a| <= MAX_ASSIGNMENTS
    && (forall i | 0 <= i < |a| :: a[i].ordinal == i)
    && (forall i, j | 0 <= i < j < |a| :: a[i].agent != a[j].agent)
    && (forall i | 0 <= i < |a| :: a[i].role.Reviewer? <==> p.mode == Consensus && i == |a| - 1)
    && (p.mode == Single ==> |a| == 1)
    && (p.mode == Competitive ==> |a| >= 2)
    && (p.mode == Consensus ==> |a| >= 3)
    && (p.mode == Sequential ==> forall i | 0 <= i < |a| :: a[i].phase == i)
  }

  /** How many workers a plan is to have: as many as asked for, or else at most three of those left to work. */
  function WorkerTotal(mode: Mode, candidates: nat, count: Option<nat>, reviewer: Option<string>): nat {
    if mode == Single then 1
    else if count.Some? then count.value
    else Min(3, if mode == Consensus && reviewer.None? then SaturatingSub(candidates, 1) else candidates)
  }

  /** The mode's numbers can be met: enough workers, not too many assignments, and somebody else to review. */
  ghost predicate Buildable(mode: Mode, candidates: seq<Agent>, count: Option<nat>, reviewer: Option<string>) {
    var n := WorkerTotal(mode, |candidates|, count, reviewer);
    && n <= |candidates|
    && match mode
       case Single => count.None? || count.value == 1
       case Sequential => 1 <= n <= 30
       case Competitive => 2 <= n <= 30
       case Consensus =>
         && 2 <= n <= 29
         && (reviewer.None? ==> 3 <= |candidates| && n < |candidates|)
         && forall i | 0 <= i < n :: candidates[i].key != ReviewerOf(candidates, n, reviewer)
  }

  /** The reviewer of a consensus with `n` workers: the named one, or the candidate right after the workers. */
  function ReviewerOf(candidates: seq<Agent>, n: nat, reviewer: Option<string>): string {
    match reviewer
    case Some(key) => key
    case None => if n < |candidates| then candidates[n].key else ""
  }

  /**
   * A plan is built exactly when the mode's numbers can be met. The first candidates are its workers,
   * in order, one phase each in a sequence and all in the first phase otherwise; in a consensus the
   * reviewer follows in the second phase.
   */
  lemma PlanMeans(mode: Mode, candidates: seq<Agent>, count: Option<nat>, reviewer: Option<string>)
    ensures var r, n := Assignments(mode, candidates, count, reviewer),
        WorkerTotal(mode, |candidates|, count, reviewer);
      && (r.Ok? <==> Buildable(mode, candidates, count, reviewer))
      && (r.Ok? ==>
            && n <= |candidates| && |r.value| == n + (if mode == Consensus then 1 else 0)
            && (forall i | 0 <= i < n ::
                  r.value[i] == Assignment(i, candidates[i].key, Worker, if mode == Sequential then i else 0))
            && (mode == Consensus ==>
                  r.value[n] == Assignment(n, ReviewerOf(candidates, n, reviewer), Reviewer, 1)))
  {
  }

  lemma AssignmentsWellFormed(mode: Mode, candidates: seq<Agent>, count: Option<nat>, reviewer: Option<string>)
    ensures var r := Assignments(mode, candidates, count, reviewer);
      r.Ok? && Prepared(candidates, reviewer) ==> WellFormed(Plan(mode, r.value))
  {
    hide Workers, WellFormed, DistinctAgents;
    var r := Assignments(mode, candidates, count, reviewer);
    if r.Ok? && Prepared(candidates, reviewer) {
      if mode == Consensus {
        ConsensusWellFormed(candidates, |r.value| - 1, ReviewerFor(candidates, count, reviewer).value);
      } else {
        WorkersWellFormed(mode, candidates, |r.value|);
      }
    }
  }

  lemma WorkersWellFormed(mode: Mode, candidates: seq<Agent>, n: nat)
    requires DistinctAgents(candidates) && n <= |candidates| && 1 <= n <= MAX_ASSIGNMENTS && mode != Consensus
    requires (mode == Single ==> n == 1) && (mode == Competitive ==> n >= 2)
    ensures WellFormed(Plan(mode, Workers(candidates, n, mode == Sequential)))
  {
    hide Workers;
  }

  lemma ConsensusWellFormed(candidates: seq<Agent>, n: nat, key: string)
    requires DistinctAgents(candidates) && 2 <= n <= |candidates| && n < MAX_ASSIGNMENTS
    requires forall i | 0 <= i < n :: candidates[i].key != key
    ensures WellFormed(Plan(Consensus, Workers(candidates, n, false) + [Assignment(n, key, Reviewer, 1)]))
  {
    hide Workers;
  }

  // ---- turns and status -----------------------------------------------------------------------------

  datatype TurnError =
    | AlreadySubmitted
    | WaitingFor(expected: Option<string>)
    | ClosedByReviewer
    | WorkersPending
    | NotAWorker

  /** The workers whose submission is missing, in plan order. */
  function Pending(s: seq<Assignment>, submitted: set<nat>): seq<Assignment> {
    if s == [] then []
    else
      (if s[0].role.Worker? && s[0].ordinal !in submitted then [s[0]] else []) + Pending(s[1..], submitted)
  }

  predicate ReviewerSubmitted(p: Plan, submitted: set<nat>) {
    exists a | a in p.assignments :: a.role.Reviewer? && a.ordinal in submitted
  }

  predicate WorkerMissing(p: Plan, submitted: set<nat>) {
    exists a | a in p.assignments :: a.role.Worker? && a.ordinal !in submitted
  }

  /** `validate_submission_turn`: the error, or nothing when the assignment may submit. */
  function CheckTurn(p: Plan, a: Assignment, submitted: set<nat>): Option<TurnError> {
    if a.ordinal in submitted then Some(AlreadySubmitted)
    else
      match p.mode
      case Sequential =>
        var pending := Pending(p.assignments, submitted);
        if pending != [] && pending[0].ordinal == a.ordinal then None
        else Some(WaitingFor(if pending == [] then Option.None else Option.Some(pending[0].agent)))
      case Consensus =>
        if a.role.Worker? then if ReviewerSubmitted(p, submitted) then Some(ClosedByReviewer) else None
        else if WorkerMissing(p, submitted) then Some(WorkersPending)
        else None
      case _ => if a.role.Worker? then None else Some(NotAWorker)
  }

  datatype Stage = Ready | Running | AwaitingReview | Completed

  datatype Status = Status(stage: Stage, current: Option<string>, submitted: seq<string>, pending: seq<string>)

  function Keys(s: seq<Assignment>): seq<string> { seq(|s|, i requires 0 <= i < |s| => s[i].agent) }

  function SubmittedKeys(s: seq<Assignment>, submitted: set<nat>): seq<string> {
    if s == [] then []
    else (if s[0].ordinal in submitted then [s[0].agent] else []) + SubmittedKeys(s[1..], submitted)
  }

  function FirstReviewer(s: seq<Assignment>): Option<Assignment> {
    if s == [] then None else if s[0].role.Reviewer? then Some(s[0]) else FirstReviewer(s[1..])
  }

  /** `workflow_status`. */
  function StatusOf(p: Plan, submitted: set<nat>): Status {
    var pending := Pending(p.assignments, submitted);
    var done := SubmittedKeys(p.assignments, submitted);
    var under := if submitted != {} then Running else Ready;
    var completed := Status(Completed, None, done, []);
    match p.mode
    case Sequential =>
      if pending != [] then Status(under, Some(pending[0].agent), done, Keys(pending)) else completed
    case Consensus =>
      if pending != [] then Status(under, None, done, Keys(pending))
      else (
        match FirstReviewer(p.assignments)
        case Some(reviewer) =>
          if reviewer.ordinal in submitted then completed
          else Status(AwaitingReview, Some(reviewer.agent), done, [reviewer.agent])
        case None => completed)
    case _ =>
      if pending == [] then completed
      else Status(under, if p.mode == Single then Some(pending[0].agent) else None, done, Keys(pending))
  }
}
