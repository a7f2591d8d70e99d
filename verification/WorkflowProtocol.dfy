/** Concurrent workflow submissions: a stale snapshot is validated first, the record is inserted later. */
module WorkflowProtocol {
  import opened Prelude
  import opened WorkflowModes
  import opened Text
  import opened SharedContext
  import opened Tallies
  import opened WorkflowPlans

  const PLAN_KEY := "workflow.plan.v1"
  const SUBMISSION_PREFIX := "workflow.submission.v1."

  datatype Submission = Submission(ordinal: nat, agent: string, role: AssignmentRole, content: string)

  /** A context value as far as the protocol can read it. */
  datatype Value = PlanRecord(plan: Plan) | SubmissionRecord(submission: Submission) | Other(data: nat)

  /** A request that passed validation, before or while it holds the insertion lock. */
  datatype InFlight = Validated(submission: Submission) | Locked(submission: Submission)

  datatype System = System(
    context: map<string, Value>, requests: map<nat, InFlight>, lock: Option<nat>, accepted: seq<Submission>)

  function KeyFor(s: Submission): string { OrdinalKey(SUBMISSION_PREFIX, s.ordinal) }

  /** The ordinals `load_submissions` finds. */
  function Loaded(context: map<string, Value>): set<nat> {
    set k | k in context && SUBMISSION_PREFIX <= k && context[k].SubmissionRecord? :: context[k].submission.ordinal
  }

  /** Keys other code may write: no submission record and not the plan. */
  predicate Foreign(key: string) { !(SUBMISSION_PREFIX <= key) && key != PLAN_KEY }

  /** Generic context writes and the admission record are foreign writes. */
  lemma ForeignWrites(raw: string)
    ensures !Reserved(raw) ==> Foreign(Trim(raw))
    ensures Foreign("workflow.admission.v1")
  {
    if !Reserved(raw) {
      assert "workflow." <= SUBMISSION_PREFIX && "workflow." <= PLAN_KEY;
      GenericWriteStaysOut(raw, SUBMISSION_PREFIX);
      GenericWriteStaysOut(raw, PLAN_KEY);
    }
    assert "workflow.admission.v1"[9] == 'a' && SUBMISSION_PREFIX[9] == 's';
  }

  // ---- steps -------------------------------------------------------------------------------------

  datatype Action =
    | Validate(request: nat, a: Assignment, content: string)
    | Check(request: nat)
    | Insert(request: nat)
    | Abandon(request: nat)
    | WriteForeign(key: string, value: Value)

  ghost predicate Step(p: Plan, s: System, action: Action, t: System) {
    match action
    case Validate(id, a, content) =>
      && id !in s.requests && a in p.assignments
      && CheckTurn(p, a, Loaded(s.context)).None?
      && t == s.(requests := s.requests[id := Validated(Submission(a.ordinal, a.agent, a.role, content))])
    case Check(id) =>
      && s.lock.None? && id in s.requests && s.requests[id].Validated?
      && t == (
        if KeyFor(s.requests[id].submission) in s.context then s.(requests := s.requests - {id})
        else s.(lock := Some(id), requests := s.requests[id := Locked(s.requests[id].submission)]))
    case Insert(id) =>
      && s.lock == Some(id) && id in s.requests && s.requests[id].Locked?
      && var submission := s.requests[id].submission;
      t == System(
        s.context[KeyFor(submission) := SubmissionRecord(submission)], s.requests - {id}, None,
        s.accepted + [submission])
    case Abandon(id) =>
      && id in s.requests
      && t == s.(requests := s.requests - {id}, lock := if s.lock == Some(id) then None else s.lock)
    case WriteForeign(key, value) =>
      Foreign(key) && t == s.(context := s.context[key := value])
  }

  /** The channel right after the plan was stored. */
  ghost predicate Starts(p: Plan, s: System) {
    && PLAN_KEY in s.context && s.context[PLAN_KEY] == PlanRecord(p)
    && (forall k | k in s.context :: !(SUBMISSION_PREFIX <= k))
    && s.requests == map[] && s.lock == None && s.accepted == []
  }

  ghost predicate Run(p: Plan, ss: seq<System>, actions: seq<Action>) {
    && WellFormed(p)
    && |ss| == |actions| + 1 && Starts(p, ss[0])
    && forall i | 0 <= i < |actions| :: Step(p, ss[i], actions[i], ss[i + 1])
  }

  // ---- invariants ----------------------------------------------------------------------------------

  function Ordinals(accepted: seq<Submission>): set<nat> {
    set i | 0 <= i < |accepted| :: accepted[i].ordinal
  }

  ghost predicate Assigned(p: Plan, s: Submission) {
    && s.ordinal < |p.assignments|
    && p.assignments[s.ordinal].agent == s.agent && p.assignments[s.ordinal].role == s.role
  }

  /** The context's submission records are exactly the accepted ones. */
  ghost predicate Recorded(p: Plan, s: System) {
    && PLAN_KEY in s.context && s.context[PLAN_KEY] == PlanRecord(p)
    && (forall i | 0 <= i < |s.accepted| ::
          KeyFor(s.accepted[i]) in s.context && s.context[KeyFor(s.accepted[i])] == SubmissionRecord(s.accepted[i]))
    && (forall k | k in s.context && SUBMISSION_PREFIX <= k ::
          exists i | 0 <= i < |s.accepted| :: KeyFor(s.accepted[i]) == k)
  }

  /** What was true when a request was validated stays true: the gate of its turn. */
  ghost predicate Gate(p: Plan, s: Submission, submitted: set<nat>) {
    && Assigned(p, s)
    && (p.mode == Sequential ==> Range(s.ordinal) <= submitted)
    && (s.role.Reviewer? ==> Range(|p.assignments| - 1) <= submitted)
  }

  ghost predicate Gated(p: Plan, s: System) {
    && (forall id | id in s.requests :: Gate(p, s.requests[id].submission, Ordinals(s.accepted)))
    && (forall id | id in s.requests && s.requests[id].Locked? ::
          s.lock == Some(id) && KeyFor(s.requests[id].submission) !in s.context)
  }

  /** The order in which submissions were accepted obeys the mode. */
  ghost predicate InOrder(p: Plan, accepted: seq<Submission>) {
    && (forall i | 0 <= i < |accepted| :: Assigned(p, accepted[i]))
    && (forall i, j | 0 <= i < j < |accepted| :: accepted[i].ordinal != accepted[j].ordinal)
    && (p.mode == Sequential ==> forall i | 0 <= i < |accepted| :: accepted[i].ordinal == i)
    && (forall i | 0 <= i < |accepted| && accepted[i].role.Reviewer? :: i == |p.assignments| - 1)
  }

  ghost predicate Inv(p: Plan, s: System) {
    Recorded(p, s) && Gated(p, s) && InOrder(p, s.accepted)
  }

  lemma {:induction false} OrdinalsSize(accepted: seq<Submission>)
    requires forall i, j | 0 <= i < j < |accepted| :: accepted[i].ordinal != accepted[j].ordinal
    ensures |Ordinals(accepted)| == |accepted|
  {
    if accepted != [] {
      var n := |accepted| - 1;
      var init := accepted[..n];
      OrdinalsSize(init);
      assert init + [accepted[n]] == accepted;
      OrdinalsAppend(init, accepted[n]);
      FreshOrdinal(init, accepted[n]);
    } else {
      assert Ordinals(accepted) == {};
    }
  }

  lemma FreshOrdinal(accepted: seq<Submission>, s: Submission)
    requires forall i | 0 <= i < |accepted| :: accepted[i].ordinal != s.ordinal
    ensures s.ordinal !in Ordinals(accepted)
  {
  }

  lemma OrdinalsAppend(accepted: seq<Submission>, s: Submission)
    ensures Ordinals(accepted + [s]) == Ordinals(accepted) + {s.ordinal}
  {
    var longer := accepted + [s];
    assert longer[|accepted|] == s;
    assert forall i | 0 <= i < |accepted| :: longer[i] == accepted[i];
  }

  /** Accepted submissions never outnumber the assignments; when they match, everyone has submitted. */
  lemma AcceptedBound(p: Plan, accepted: seq<Submission>)
    requires InOrder(p, accepted)
    ensures |accepted| <= |p.assignments|
    ensures Ordinals(accepted) <= Range(|p.assignments|)
    ensures |accepted| == |p.assignments| <==> Ordinals(accepted) == Range(|p.assignments|)
  {
    OrdinalsSize(accepted);
    SubsetSize(Ordinals(accepted), Range(|p.assignments|));
  }

  lemma LoadedIsAccepted(p: Plan, s: System)
    requires Recorded(p, s)
    ensures Loaded(s.context) == Ordinals(s.accepted)
  {
    hide OrdinalKey;
    forall o
      ensures o in Loaded(s.context) <==> o in Ordinals(s.accepted)
    {
      if o in Ordinals(s.accepted) {
        var i :| 0 <= i < |s.accepted| && s.accepted[i].ordinal == o;
        OrdinalKeyInjective(SUBMISSION_PREFIX, o, o);
        assert KeyFor(s.accepted[i]) in s.context;
      }
      if o in Loaded(s.context) {
        var k :| k in s.context && SUBMISSION_PREFIX <= k && s.context[k].SubmissionRecord?
          && s.context[k].submission.ordinal == o;
        var i :| 0 <= i < |s.accepted| && KeyFor(s.accepted[i]) == k;
      }
    }
  }

  // ---- turns ------------------------------------------------------------------------------------------

  lemma {:induction false} PendingLaws(s: seq<Assignment>, submitted: set<nat>)
    ensures forall a :: a in Pending(s, submitted) <==> a in s && a.role.Worker? && a.ordinal !in submitted
    ensures Pending(s, submitted) != [] ==>
        exists i | 0 <= i < |s| ::
          s[i] == Pending(s, submitted)[0]
          && forall j | 0 <= j < i :: s[j].role.Reviewer? || s[j].ordinal in submitted
  {
    if s != [] {
      PendingLaws(s[1..], submitted);
      assert s == [s[0]] + s[1..];
      if s[0].role.Worker? && s[0].ordinal !in submitted {
        assert s[0] == Pending(s, submitted)[0];
      } else if Pending(s[1..], submitted) != [] {
        var i :| 0 <= i < |s[1..]| && s[1..][i] == Pending(s[1..], submitted)[0]
          && forall j | 0 <= j < i :: s[1..][j].role.Reviewer? || s[1..][j].ordinal in submitted;
        assert s[i + 1] == Pending(s, submitted)[0];
        assert forall j | 0 <= j < i + 1 :: j == 0 || s[j] == s[1..][j - 1];
      }
    }
  }

  /** Passing the turn check opens the gate. */
  lemma TurnOpensGate(p: Plan, a: Assignment, submitted: set<nat>, content: string)
    requires WellFormed(p) && a in p.assignments && CheckTurn(p, a, submitted).None?
    ensures Gate(p, Submission(a.ordinal, a.agent, a.role, content), submitted)
  {
    var n := |p.assignments|;
    PendingLaws(p.assignments, submitted);
    if p.mode == Sequential {
      var i :| 0 <= i < n && p.assignments[i] == Pending(p.assignments, submitted)[0]
        && forall j | 0 <= j < i :: p.assignments[j].role.Reviewer? || p.assignments[j].ordinal in submitted;
      forall j | j in Range(a.ordinal)
        ensures j in submitted
      {
        assert p.assignments[j].ordinal == j;
      }
    }
    if a.role.Reviewer? {
      forall j | j in Range(n - 1)
        ensures j in submitted
      {
        assert p.assignments[j] in p.assignments && p.assignments[j].ordinal == j;
      }
    }
  }

  /** A gated sequential submission that is not recorded is the next one. */
  lemma NextInSequence(accepted: seq<Submission>, ordinal: nat)
    requires forall i | 0 <= i < |accepted| :: accepted[i].ordinal == i
    requires Range(ordinal) <= Ordinals(accepted) && ordinal !in Ordinals(accepted)
    ensures ordinal == |accepted|
  {
    forall i | 0 <= i < |accepted|
      ensures i in Ordinals(accepted)
    {
      assert accepted[i].ordinal == i;
    }
    assert |accepted| !in Ordinals(accepted);
  }

  /** A gated reviewer that is not recorded comes after all workers, which are all recorded. */
  lemma ReviewerComesLast(p: Plan, accepted: seq<Submission>, ordinal: nat)
    requires InOrder(p, accepted) && p.assignments != [] && ordinal < |p.assignments|
    requires Range(|p.assignments| - 1) <= Ordinals(accepted) && ordinal !in Ordinals(accepted)
    ensures |accepted| == |p.assignments| - 1
  {
    AcceptedBound(p, accepted);
    OrdinalsSize(accepted);
    SubsetSize(Range(|p.assignments| - 1), Ordinals(accepted));
  }

  /** Inserting a gated, unrecorded submission keeps the order of the mode. */
  lemma InsertKeepsOrder(p: Plan, accepted: seq<Submission>, s: Submission)
    requires WellFormed(p) && InOrder(p, accepted) && Gate(p, s, Ordinals(accepted))
    requires s.ordinal !in Ordinals(accepted)
    ensures InOrder(p, accepted + [s])
  {
    if p.mode == Sequential {
      NextInSequence(accepted, s.ordinal);
    }
    if s.role.Reviewer? {
      ReviewerComesLast(p, accepted, s.ordinal);
    }
    forall i | 0 <= i < |accepted|
      ensures accepted[i].ordinal != s.ordinal
    {
      assert accepted[i].ordinal in Ordinals(accepted);
    }
    hide WellFormed, InOrder, Ordinals, Range;
    InOrderAppend(p, accepted, s);
  }

  lemma InOrderAppend(p: Plan, accepted: seq<Submission>, s: Submission)
    requires InOrder(p, accepted) && Assigned(p, s)
    requires forall i | 0 <= i < |accepted| :: accepted[i].ordinal != s.ordinal
    requires p.mode == Sequential ==> s.ordinal == |accepted|
    requires s.role.Reviewer? ==> |accepted| == |p.assignments| - 1
    ensures InOrder(p, accepted + [s])
  {
    hide Assigned;
    var longer := accepted + [s];
    assert longer[|accepted|] == s;
    assert forall i | 0 <= i < |accepted| :: longer[i] == accepted[i];
  }

  lemma StepKeepsInv(p: Plan, s: System, action: Action, t: System)
    requires WellFormed(p) && Inv(p, s) && Step(p, s, action, t)
    ensures Inv(p, t)
    ensures s.accepted <= t.accepted
  {
    match action
    case Validate(id, a, content) => ValidateKeeps(p, s, id, a, content, t);
    case Insert(id) => InsertKeepsInv(p, s, id, t);
    case WriteForeign(key, value) => ForeignKeeps(p, s, key, value, t);
    case _ => RequestOnlyKeeps(p, s, action, t);
  }

  lemma ValidateKeeps(p: Plan, s: System, id: nat, a: Assignment, content: string, t: System)
    requires WellFormed(p) && Inv(p, s) && Step(p, s, Validate(id, a, content), t)
    ensures Inv(p, t) && t.accepted == s.accepted
  {
    hide WellFormed, OrdinalKey, InOrder, Recorded, CheckTurn, Gate;
    LoadedIsAccepted(p, s);
    SameRecords(p, s, t);
    TurnOpensGate(p, a, Ordinals(s.accepted), content);
  }

  lemma RequestOnlyKeeps(p: Plan, s: System, action: Action, t: System)
    requires Inv(p, s) && Step(p, s, action, t) && (action.Check? || action.Abandon?)
    ensures Inv(p, t) && t.accepted == s.accepted
  {
    hide WellFormed, OrdinalKey, InOrder, Recorded, CheckTurn, Gate, KeyFor;
    SameRecords(p, s, t);
  }

  lemma SameRecords(p: Plan, s: System, t: System)
    ensures Recorded(p, s) && t.context == s.context && t.accepted == s.accepted ==> Recorded(p, t)
  {
  }

  lemma ForeignKeeps(p: Plan, s: System, key: string, value: Value, t: System)
    requires Inv(p, s) && Step(p, s, WriteForeign(key, value), t)
    ensures Inv(p, t) && t.accepted == s.accepted
  {
    hide WellFormed, OrdinalKey, InOrder, Gate;
    KeysPrefixed(s.accepted);
    forall id | id in s.requests
      ensures SUBMISSION_PREFIX <= KeyFor(s.requests[id].submission)
    {
      OrdinalKeyInjective(SUBMISSION_PREFIX, s.requests[id].submission.ordinal, 0);
    }
  }

  lemma KeysPrefixed(accepted: seq<Submission>)
    ensures forall i | 0 <= i < |accepted| :: SUBMISSION_PREFIX <= KeyFor(accepted[i])
  {
    forall i | 0 <= i < |accepted|
      ensures SUBMISSION_PREFIX <= KeyFor(accepted[i])
    {
      OrdinalKeyInjective(SUBMISSION_PREFIX, accepted[i].ordinal, 0);
    }
  }

  lemma InsertKeepsInv(p: Plan, s: System, id: nat, t: System)
    requires WellFormed(p) && Inv(p, s) && Step(p, s, Insert(id), t)
    ensures Inv(p, t)
    ensures s.accepted <= t.accepted
  {
    hide WellFormed, InOrder, OrdinalKey, Gate;
    var submission := s.requests[id].submission;
    NotYetAccepted(p, s, submission);
    InsertKeepsOrder(p, s.accepted, submission) by { assert Gate(p, submission, Ordinals(s.accepted)); }
    InsertRecorded(p, s, submission, t);
    forall other | other in t.requests
      ensures Gate(p, t.requests[other].submission, Ordinals(t.accepted)) && !t.requests[other].Locked?
    {
      assert s.requests[other] == t.requests[other];
      GateStays(p, s.requests[other].submission, s.accepted, submission);
    }
  }

  lemma GateStays(p: Plan, s: Submission, accepted: seq<Submission>, added: Submission)
    requires Gate(p, s, Ordinals(accepted))
    ensures Gate(p, s, Ordinals(accepted + [added]))
  {
    OrdinalsAppend(accepted, added);
  }

  lemma NotYetAccepted(p: Plan, s: System, submission: Submission)
    requires Recorded(p, s) && KeyFor(submission) !in s.context
    ensures submission.ordinal !in Ordinals(s.accepted)
  {
    forall i | 0 <= i < |s.accepted|
      ensures s.accepted[i].ordinal != submission.ordinal
    {
      assert KeyFor(s.accepted[i]) in s.context;
    }
  }

  lemma InsertRecorded(p: Plan, s: System, submission: Submission, t: System)
    requires Recorded(p, s) && KeyFor(submission) !in s.context
    requires t.context == s.context[KeyFor(submission) := SubmissionRecord(submission)]
    requires t.accepted == s.accepted + [submission]
    ensures Recorded(p, t)
  {
    hide KeyFor;
    assert t.accepted[|s.accepted|] == submission;
    assert forall i | 0 <= i < |s.accepted| :: t.accepted[i] == s.accepted[i];
  }

  lemma {:induction false} RunKeepsInv(p: Plan, ss: seq<System>, actions: seq<Action>, i: nat, j: nat)
    requires Run(p, ss, actions) && i <= j < |ss|
    ensures Inv(p, ss[j])
    ensures ss[i].accepted <= ss[j].accepted
  {
    hide Step, Inv;
    if i < j {
      RunKeepsInv(p, ss, actions, i, j - 1);
      StepKeepsInv(p, ss[j - 1], actions[j - 1], ss[j]);
    } else if j > 0 {
      RunKeepsInv(p, ss, actions, j - 1, j - 1);
      StepKeepsInv(p, ss[j - 1], actions[j - 1], ss[j]);
    } else {
      StartHasInv(p, ss[0]);
    }
  }

  lemma StartHasInv(p: Plan, s: System)
    requires Starts(p, s)
    ensures Inv(p, s)
  {
  }

  // ---- the theorems --------------------------------------------------------------------------------------

  /**
   * In every interleaving each assignment is accepted at most once and its record never changes;
   * sequential submissions are accepted in ordinal order; and a consensus reviewer is accepted
   * last, after every worker.
   */
  lemma SubmissionOrder(p: Plan, ss: seq<System>, actions: seq<Action>, i: nat)
    requires Run(p, ss, actions) && i < |ss|
    ensures var accepted := ss[i].accepted;
      && |accepted| <= |p.assignments|
      && (forall j, k | 0 <= j < k < |accepted| :: accepted[j].ordinal != accepted[k].ordinal)
      && (forall j | 0 <= j < |accepted| ::
            Assigned(p, accepted[j]) && KeyFor(accepted[j]) in ss[i].context
            && ss[i].context[KeyFor(accepted[j])] == SubmissionRecord(accepted[j]))
      && (p.mode == Sequential ==> forall j | 0 <= j < |accepted| :: accepted[j].ordinal == j)
      && (p.mode == Consensus ==> forall j | 0 <= j < |accepted| && accepted[j].role.Reviewer? ::
            j == |accepted| - 1 == |p.assignments| - 1)
  {
    RunKeepsInv(p, ss, actions, i, i);
    AcceptedBound(p, ss[i].accepted);
  }

  /** Accepted submissions are never withdrawn or replaced. */
  lemma SubmissionsAreFinal(p: Plan, ss: seq<System>, actions: seq<Action>, i: nat, j: nat)
    requires Run(p, ss, actions) && i <= j < |ss|
    ensures ss[i].accepted <= ss[j].accepted
  {
    RunKeepsInv(p, ss, actions, i, j);
  }

  /** The submission sets that runs reach. */
  ghost predicate Reachable(p: Plan, submitted: set<nat>) {
    && submitted <= Range(|p.assignments|)
    && (p.mode == Sequential ==> submitted == Range(|submitted|))
    && (p.mode == Consensus && |p.assignments| - 1 in submitted ==> submitted == Range(|p.assignments|))
  }

  lemma RunReaches(p: Plan, ss: seq<System>, actions: seq<Action>, i: nat)
    requires Run(p, ss, actions) && i < |ss|
    ensures Loaded(ss[i].context) == Ordinals(ss[i].accepted) && Reachable(p, Loaded(ss[i].context))
  {
    var accepted := ss[i].accepted;
    RunKeepsInv(p, ss, actions, i, i);
    LoadedIsAccepted(p, ss[i]);
    AcceptedBound(p, accepted);
    OrdinalsSize(accepted);
    if p.mode == Sequential {
      forall j: nat | j < |accepted|
        ensures j in Ordinals(accepted)
      {
        assert accepted[j].ordinal == j;
      }
      assert Ordinals(accepted) == Range(|accepted|);
    }
    if p.mode == Consensus && |p.assignments| - 1 in Ordinals(accepted) {
      var j :| 0 <= j < |accepted| && accepted[j].ordinal == |p.assignments| - 1;
      assert accepted[j].role.Reviewer?;
    }
  }

  /** May the assignment submit, according to the reported status? */
  ghost predicate Invited(p: Plan, a: Assignment, submitted: set<nat>) {
    var status := StatusOf(p, submitted);
    if status.current.Some? then a.agent == status.current.value else a.agent in status.pending
  }

  lemma {:induction false} FirstReviewerLaws(s: seq<Assignment>)
    ensures FirstReviewer(s).Some? ==> FirstReviewer(s).value in s && FirstReviewer(s).value.role.Reviewer?
    ensures FirstReviewer(s).None? ==> forall a | a in s :: a.role.Worker?
  {
    if s != [] {
      FirstReviewerLaws(s[1..]);
      assert s == [s[0]] + s[1..];
    }
  }

  lemma SameAgentSameAssignment(p: Plan, a: Assignment, b: Assignment)
    requires WellFormed(p) && a in p.assignments && b in p.assignments
    ensures a.agent == b.agent <==> a == b
    ensures a.ordinal == b.ordinal <==> a == b
    ensures a.ordinal < |p.assignments| && p.assignments[a.ordinal] == a
  {
  }

  lemma KeysMember(s: seq<Assignment>, agent: string)
    ensures agent in Keys(s) <==> exists a | a in s :: a.agent == agent
  {
    if agent in Keys(s) {
      var i :| 0 <= i < |Keys(s)| && Keys(s)[i] == agent;
      assert s[i] in s;
    }
    forall a | a in s
      ensures a.agent in Keys(s)
    {
      var i :| 0 <= i < |s| && s[i] == a;
      assert Keys(s)[i] == a.agent;
    }
  }

  /** An assignment passes the turn check exactly when the status invites it. */
  lemma TurnMatchesStatus(p: Plan, a: Assignment, submitted: set<nat>)
    requires WellFormed(p) && Reachable(p, submitted) && a in p.assignments
    ensures CheckTurn(p, a, submitted).None? <==> Invited(p, a, submitted)
  {
    var pending := Pending(p.assignments, submitted);
    if p.mode == Consensus {
      ConsensusTurn(p, a, submitted);
    } else {
      PendingKey(p, a, submitted);
      PendingLaws(p.assignments, submitted);
      if pending != [] {
        assert pending[0] in pending;
        SameAgentSameAssignment(p, a, pending[0]);
      }
      SingleWorker(p, a);
    }
  }

  lemma SingleWorker(p: Plan, a: Assignment)
    requires p.mode != Consensus && a in p.assignments
    ensures WellFormed(p) ==> a.role.Worker? && (p.mode == Single ==> forall b | b in p.assignments :: b == a)
  {
  }

  /** In consensus the last assignment is the one reviewer. */
  lemma TheReviewer(p: Plan, submitted: set<nat>)
    requires WellFormed(p) && p.mode == Consensus
    ensures var last := p.assignments[|p.assignments| - 1];
      && FirstReviewer(p.assignments) == Some(last)
      && last.ordinal == |p.assignments| - 1
      && (forall a | a in p.assignments :: a.role.Reviewer? <==> a == last)
      && (ReviewerSubmitted(p, submitted) <==> last.ordinal in submitted)
      && (WorkerMissing(p, submitted) <==> Pending(p.assignments, submitted) != [])
  {
    var last := p.assignments[|p.assignments| - 1];
    FirstReviewerLaws(p.assignments);
    PendingLaws(p.assignments, submitted);
    assert last in p.assignments && last.role.Reviewer?;
    if Pending(p.assignments, submitted) != [] {
      assert Pending(p.assignments, submitted)[0] in Pending(p.assignments, submitted);
    }
  }

  /** The pending keys are those of the workers still missing. */
  lemma PendingKey(p: Plan, a: Assignment, submitted: set<nat>)
    requires WellFormed(p) && a in p.assignments
    ensures a.agent in Keys(Pending(p.assignments, submitted)) <==> a.role.Worker? && a.ordinal !in submitted
    ensures Pending(p.assignments, submitted) == [] ==> a.role.Reviewer? || a.ordinal in submitted
  {
    var pending := Pending(p.assignments, submitted);
    PendingLaws(p.assignments, submitted);
    KeysMember(pending, a.agent);
    forall b | b in pending && b.agent == a.agent
      ensures a == b
    {
      SameAgentSameAssignment(p, a, b);
    }
    assert a.role.Worker? && a.ordinal !in submitted ==> a in pending;
  }

  lemma ConsensusTurn(p: Plan, a: Assignment, submitted: set<nat>)
    requires p.mode == Consensus && a in p.assignments
    requires WellFormed(p) && Reachable(p, submitted)
    ensures CheckTurn(p, a, submitted).None? <==> Invited(p, a, submitted)
  {
    var last := p.assignments[|p.assignments| - 1];
    TheReviewer(p, submitted);
    PendingKey(p, a, submitted);
    SameAgentSameAssignment(p, a, last);
    SameAgentSameAssignment(p, a, a);
    AllSubmittedByReviewer(p, a, submitted);
    hide WellFormed, Reachable, FirstReviewer, Pending, ReviewerSubmitted, WorkerMissing, Keys, SubmittedKeys;
    assert [last.agent][0] == last.agent;
  }

  lemma AllSubmittedByReviewer(p: Plan, a: Assignment, submitted: set<nat>)
    requires WellFormed(p) && Reachable(p, submitted) && p.mode == Consensus && a in p.assignments
    ensures |p.assignments| - 1 in submitted ==> a.ordinal in submitted
  {
  }

  /** The stage is Completed exactly when everybody has submitted, and exactly then nobody may submit. */
  lemma CompletedMeansClosed(p: Plan, submitted: set<nat>)
    requires WellFormed(p) && Reachable(p, submitted)
    ensures StatusOf(p, submitted).stage == Completed <==> submitted == Range(|p.assignments|)
    ensures StatusOf(p, submitted).stage == Completed <==>
        forall a | a in p.assignments :: CheckTurn(p, a, submitted).Some?
  {
    if StatusOf(p, submitted).stage != Completed {
      var open := SomeoneOpen(p, submitted);
      assert open in p.assignments && CheckTurn(p, open, submitted).None?;
      SameAgentSameAssignment(p, open, open);
    } else {
      CompletedMeansAll(p, submitted);
      forall i | i in Range(|p.assignments|)
        ensures i in submitted
      {
        assert p.assignments[i] in p.assignments;
      }
    }
  }

  lemma CompletedMeansAll(p: Plan, submitted: set<nat>)
    requires WellFormed(p) && StatusOf(p, submitted).stage == Completed
    ensures forall a | a in p.assignments :: a.ordinal in submitted
  {
    PendingLaws(p.assignments, submitted);
    if p.mode == Consensus {
      TheReviewer(p, submitted);
    }
    hide Pending, FirstReviewer, Keys, SubmittedKeys;
  }

  lemma SomeoneOpen(p: Plan, submitted: set<nat>) returns (open: Assignment)
    requires WellFormed(p) && Reachable(p, submitted) && StatusOf(p, submitted).stage != Completed
    ensures open in p.assignments && CheckTurn(p, open, submitted).None?
  {
    var pending := Pending(p.assignments, submitted);
    PendingLaws(p.assignments, submitted);
    FirstReviewerLaws(p.assignments);
    open := if pending != [] then pending[0] else FirstReviewer(p.assignments).value;
    assert pending != [] ==> pending[0] in pending;
  }

  /**
   * A run that nobody can extend by a submission has accepted exactly one from every assignment;
   * and as long as one is missing, some assignment passes the turn check.
   */
  lemma MaximalRunsAreComplete(p: Plan, ss: seq<System>, actions: seq<Action>, i: nat)
    requires Run(p, ss, actions) && i < |ss|
    ensures (forall a | a in p.assignments :: CheckTurn(p, a, Loaded(ss[i].context)).Some?)
        <==> |ss[i].accepted| == |p.assignments|
    ensures |ss[i].accepted| == |p.assignments| ==> StatusOf(p, Loaded(ss[i].context)).stage == Completed
  {
    hide CheckTurn, StatusOf, WellFormed;
    RunReaches(p, ss, actions, i);
    RunKeepsInv(p, ss, actions, i, i);
    AcceptedBound(p, ss[i].accepted);
    CompletedMeansClosed(p, Loaded(ss[i].context));
  }

  // ---- what the check and the status say -----------------------------------------------------------

  /** The assignment `o` is the first of the plan without a submission. */
  ghost predicate FirstMissing(p: Plan, submitted: set<nat>, o: nat) {
    o < |p.assignments| && o !in submitted && forall i: nat | i < o :: i in submitted
  }

  /** Every worker has submitted. */
  ghost predicate WorkersDone(p: Plan, submitted: set<nat>) {
    forall i: nat | i < |p.assignments| && (p.mode == Consensus ==> i < |p.assignments| - 1) :: i in submitted
  }

  /** Who may submit, told from ordinals, and what the others are told. */
  lemma TurnMeans(p: Plan, a: Assignment, submitted: set<nat>)
    requires WellFormed(p) && a in p.assignments
    ensures var e, last := CheckTurn(p, a, submitted), |p.assignments| - 1;
      && (e == Some(AlreadySubmitted) <==> a.ordinal in submitted)
      && (p.mode == Sequential && a.ordinal !in submitted ==>
            && (e.None? <==> FirstMissing(p, submitted, a.ordinal))
            && (e.Some? ==> exists o: nat ::
                  FirstMissing(p, submitted, o) && e == Some(WaitingFor(Option.Some(p.assignments[o].agent)))))
      && (p.mode == Consensus && a.ordinal !in submitted ==>
            if a.ordinal < last then e == if last in submitted then Some(ClosedByReviewer) else None
            else e == if WorkersDone(p, submitted) then None else Some(WorkersPending))
      && ((p.mode == Single || p.mode == Competitive) && a.ordinal !in submitted ==> e.None?)
  {
    MissingMeans(p, submitted);
    PendingLaws(p.assignments, submitted);
    assert p.assignments[a.ordinal] == a;
    if p.mode == Sequential {
      var pending := Pending(p.assignments, submitted);
      if pending != [] {
        FirstPending(p, submitted);
      }
    }
    hide Pending, WorkerMissing, ReviewerSubmitted, WorkersDone, FirstMissing;
    if p.mode == Sequential && a.ordinal !in submitted && a.ordinal != Pending(p.assignments, submitted)[0].ordinal {
      OneFirstMissing(p, submitted, a.ordinal, Pending(p.assignments, submitted)[0].ordinal);
    }
  }

  lemma OneFirstMissing(p: Plan, submitted: set<nat>, i: nat, j: nat)
    requires i != j
    ensures !FirstMissing(p, submitted, i) || !FirstMissing(p, submitted, j)
  {
  }

  lemma FirstPending(p: Plan, submitted: set<nat>)
    requires WellFormed(p) && p.mode == Sequential && Pending(p.assignments, submitted) != []
    ensures var first := Pending(p.assignments, submitted)[0];
      FirstMissing(p, submitted, first.ordinal) && p.assignments[first.ordinal] == first
  {
    PendingLaws(p.assignments, submitted);
    hide Pending;
    var pending := Pending(p.assignments, submitted);
    var i :| 0 <= i < |p.assignments| && p.assignments[i] == pending[0]
      && forall j | 0 <= j < i :: p.assignments[j].role.Reviewer? || p.assignments[j].ordinal in submitted;
    assert pending[0] in pending;
    forall j: nat | j < i
      ensures j in submitted
    {
      assert p.assignments[j].ordinal == j;
    }
  }

  lemma MissingMeans(p: Plan, submitted: set<nat>)
    requires WellFormed(p)
    ensures WorkerMissing(p, submitted) <==> !WorkersDone(p, submitted)
    ensures ReviewerSubmitted(p, submitted) <==> p.mode == Consensus && |p.assignments| - 1 in submitted
  {
    assert forall i | 0 <= i < |p.assignments| :: p.assignments[i] in p.assignments;
    if !WorkersDone(p, submitted) {
      var i: nat :| i < |p.assignments| && (p.mode == Consensus ==> i < |p.assignments| - 1) && i !in submitted;
      assert p.assignments[i].role.Worker?;
    }
    if ReviewerSubmitted(p, submitted) {
      var a :| a in p.assignments && a.role.Reviewer? && a.ordinal in submitted;
      var i :| 0 <= i < |p.assignments| && p.assignments[i] == a;
    }
    if p.mode == Consensus && |p.assignments| - 1 in submitted {
      assert p.assignments[|p.assignments| - 1].role.Reviewer?;
    }
  }

  /** An agent listed by the status, as pending or as submitted. */
  ghost predicate AgentWith(p: Plan, key: string, submitted: set<nat>, done: bool) {
    exists i | 0 <= i < |p.assignments| :: p.assignments[i].agent == key && (i in submitted <==> done)
  }

  lemma {:induction false} SubmittedKeysLaws(s: seq<Assignment>, submitted: set<nat>)
    ensures forall k ::
        k in SubmittedKeys(s, submitted) <==> exists a | a in s :: a.ordinal in submitted && a.agent == k
  {
    if s != [] {
      SubmittedKeysLaws(s[1..], submitted);
      assert s == [s[0]] + s[1..];
    }
  }

  /** Submitted agents are those with a submission; pending ones are workers without, or at last the reviewer. */
  lemma StatusMeans(p: Plan, submitted: set<nat>)
    requires WellFormed(p) && submitted <= Range(|p.assignments|)
    ensures var s, last := StatusOf(p, submitted), |p.assignments| - 1;
      var everyone := forall i: nat | i < |p.assignments| :: i in submitted;
      && (s.stage == AwaitingReview <==> p.mode == Consensus && WorkersDone(p, submitted) && last !in submitted)
      && (s.stage == Completed <==> WorkersDone(p, submitted) && (p.mode == Consensus ==> last in submitted))
      && (s.stage == Ready <==> submitted == {})
      && (forall k :: k in s.submitted <==> AgentWith(p, k, submitted, true))
      && (s.stage == AwaitingReview ==>
            s.current == Some(p.assignments[last].agent) && s.pending == [p.assignments[last].agent])
      && (s.stage == Ready || s.stage == Running ==>
            && (p.mode == Sequential ==> exists o: nat ::
                  FirstMissing(p, submitted, o) && s.current == Some(p.assignments[o].agent))
            && (p.mode == Single ==> s.current == Some(p.assignments[0].agent))
            && (p.mode == Consensus || p.mode == Competitive ==> s.current == None)
            && forall k :: k in s.pending <==>
                AgentWith(p, k, if p.mode == Consensus then submitted + {last} else submitted, false))
      && (s.stage == Completed ==> s.current == None && s.pending == [])
  {
    var pending, last := Pending(p.assignments, submitted), |p.assignments| - 1;
    PendingDone(p, submitted);
    SubmittedAgents(p, submitted);
    PendingAgents(p, submitted);
    SomeoneSubmitted(p, submitted);
    FirstReviewerIs(p);
    if p.mode == Sequential && pending != [] {
      FirstPending(p, submitted);
    }
    if p.mode == Single && pending != [] {
      SinglePending(p, submitted);
    }
    assert p.assignments[last].ordinal == last;
    hide Pending, FirstReviewer, Keys, SubmittedKeys, Range, WorkersDone, AgentWith, FirstMissing, WellFormed;
  }

  lemma PendingDone(p: Plan, submitted: set<nat>)
    requires WellFormed(p)
    ensures Pending(p.assignments, submitted) == [] <==> WorkersDone(p, submitted)
  {
    PendingLaws(p.assignments, submitted);
    MissingMeans(p, submitted);
    hide Pending, WorkersDone, WellFormed;
    var pending := Pending(p.assignments, submitted);
    assert pending != [] ==> pending[0] in pending;
  }

  lemma SinglePending(p: Plan, submitted: set<nat>)
    requires WellFormed(p) && p.mode == Single && Pending(p.assignments, submitted) != []
    ensures Pending(p.assignments, submitted)[0] == p.assignments[0]
  {
    PendingLaws(p.assignments, submitted);
    assert Pending(p.assignments, submitted)[0] in Pending(p.assignments, submitted);
  }

  lemma SubmittedAgents(p: Plan, submitted: set<nat>)
    requires WellFormed(p)
    ensures forall k :: k in SubmittedKeys(p.assignments, submitted) <==> AgentWith(p, k, submitted, true)
  {
    SubmittedKeysLaws(p.assignments, submitted);
    hide SubmittedKeys;
    forall k
      ensures (exists a | a in p.assignments :: a.ordinal in submitted && a.agent == k)
          <==> AgentWith(p, k, submitted, true)
    {
      if AgentWith(p, k, submitted, true) {
        var i :| 0 <= i < |p.assignments| && p.assignments[i].agent == k && (i in submitted <==> true);
        assert p.assignments[i] in p.assignments;
      }
    }
  }

  lemma FirstReviewerIs(p: Plan)
    requires WellFormed(p)
    ensures if p.mode == Consensus then FirstReviewer(p.assignments) == Some(p.assignments[|p.assignments| - 1])
      else FirstReviewer(p.assignments).None?
  {
    FirstReviewerLaws(p.assignments);
    var a := p.assignments;
    assert a[|a| - 1] in a;
  }

  lemma SomeoneSubmitted(p: Plan, submitted: set<nat>)
    requires WellFormed(p)
    ensures WorkersDone(p, submitted) ==> submitted != {}
  {
    if submitted == {} {
      assert 0 !in submitted;
    }
  }

  lemma PendingAgents(p: Plan, submitted: set<nat>)
    requires WellFormed(p)
    ensures var last := |p.assignments| - 1;
      forall k :: k in Keys(Pending(p.assignments, submitted)) <==>
        AgentWith(p, k, if p.mode == Consensus then submitted + {last} else submitted, false)
  {
    var pending, last := Pending(p.assignments, submitted), |p.assignments| - 1;
    PendingLaws(p.assignments, submitted);
    hide Pending;
    forall k
      ensures k in Keys(pending) <==>
          AgentWith(p, k, if p.mode == Consensus then submitted + {last} else submitted, false)
    {
      if k in Keys(pending) {
        var j :| 0 <= j < |pending| && pending[j].agent == k;
        assert pending[j] in pending;
      }
      var done := if p.mode == Consensus then submitted + {last} else submitted;
      if i :| 0 <= i < |p.assignments| && p.assignments[i].agent == k && i !in done {
        assert p.assignments[i] in pending;
        var j :| 0 <= j < |pending| && pending[j] == p.assignments[i];
        assert Keys(pending)[j] == k;
      }
    }
  }
}
