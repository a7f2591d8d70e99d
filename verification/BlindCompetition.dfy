/** Blind competitions: hidden submissions, one reveal, and views that read in two steps. */
module BlindCompetition {
  import opened Prelude
  import opened Text
  import opened Tallies
  import opened SharedContext

  const MAX_BLIND_WORKERS := 8
  const PLAN_KEY := "workflow.blind.plan.v1"
  const SUBMISSION_PREFIX := "workflow.blind.submission.v1."
  const REVEAL_KEY := "workflow.blind.reveal.v1"

  /** Worker `i` of the plan has ordinal `i`. */
  datatype Plan = Plan(workers: seq<string>, reviewer: string)

  ghost predicate WellFormed(p: Plan) {
    && 2 <= |p.workers| <= MAX_BLIND_WORKERS
    && (forall i, j | 0 <= i < j < |p.workers| :: p.workers[i] != p.workers[j])
    && p.reviewer !in p.workers
  }

  datatype CreateError =
    | TooFewWorkers
    | TooManyWorkers
    | BadAgentKey
    | DuplicateWorker(key: string)
    | NotRegistered(key: string)
    | ReviewerIsWorker

  predicate ValidKey(raw: string) { Trim(raw) != "" && Utf8Len(Trim(raw)) <= 120 && Printable(Trim(raw)) }

  /** The worker and reviewer checks of `create_blind_competition`. */
  method CheckPlan(workerKeys: seq<string>, reviewerKey: string, registered: set<string>)
    returns (r: Result<Plan, CreateError>)
    ensures r.Ok? ==>
        && WellFormed(r.value) && |r.value.workers| == |workerKeys| && r.value.reviewer == Trim(reviewerKey)
        && (forall i | 0 <= i < |workerKeys| :: r.value.workers[i] == Trim(workerKeys[i]))
        && (forall k | k in r.value.workers + [r.value.reviewer] :: k in registered)
    ensures r.Ok? <==>
        && 2 <= |workerKeys| <= 8
        && (forall k | k in workerKeys + [reviewerKey] ::
              && Trim(k) != "" && Utf8Len(Trim(k)) < 121 && Printable(Trim(k))
              && Trim(k) in registered)
        && (forall i, j | 0 <= i < j < |workerKeys| :: Trim(workerKeys[i]) != Trim(workerKeys[j]))
        && (forall k | k in workerKeys :: Trim(k) != Trim(reviewerKey))
  {
    hide Trim, Utf8Len, Printable;
    var all := workerKeys + [reviewerKey];
    assert forall k | k in workerKeys :: k in all;
    assert all[|workerKeys|] == reviewerKey && reviewerKey in all;
    if |workerKeys| < 2 {
      return Err(TooFewWorkers);
    }
    if |workerKeys| > MAX_BLIND_WORKERS {
      return Err(TooManyWorkers);
    }
    var workers: seq<string> := [];
    for i := 0 to |workerKeys|
      invariant |workers| == i && forall j | 0 <= j < i :: workers[j] == Trim(workerKeys[j])
      invariant forall j | 0 <= j < i :: ValidKey(workerKeys[j]) && workers[j] in registered
      invariant forall j, k | 0 <= j < k < i :: workers[j] != workers[k]
    {
      assert workerKeys[i] in workerKeys;
      if !ValidKey(workerKeys[i]) {
        return Err(BadAgentKey);
      }
      var key := Trim(workerKeys[i]);
      if key in workers {
        var j :| 0 <= j < i && workers[j] == key;
        assert Trim(workerKeys[j]) == Trim(workerKeys[i]);
        return Err(DuplicateWorker(key));
      }
      if key !in registered {
        return Err(NotRegistered(key));
      }
      workers := workers + [key];
    }
    if !ValidKey(reviewerKey) {
      return Err(BadAgentKey);
    }
    var reviewer := Trim(reviewerKey);
    if reviewer in workers {
      var j :| 0 <= j < |workers| && workers[j] == reviewer;
      assert workerKeys[j] in workerKeys;
      return Err(ReviewerIsWorker);
    }
    if reviewer !in registered {
      return Err(NotRegistered(reviewer));
    }
    assert forall k | k in workerKeys :: exists j | 0 <= j < |workers| :: workerKeys[j] == k && workers[j] == Trim(k);
    return Ok(Plan(workers, reviewer));
  }

  // ---- records and views ---------------------------------------------------------------------

  datatype Submission = Submission(ordinal: nat, agent: string, content: string)

  datatype Value = PlanRecord(plan: Plan) | SubmissionRecord(submission: Submission) | RevealRecord | Other(data: nat)

  function KeyFor(s: Submission): string { OrdinalKey(SUBMISSION_PREFIX, s.ordinal) }

  /** The submissions `load_submissions` finds; their order, by ordinal, carries no information. */
  function Loaded(context: map<string, Value>): set<Submission> {
    set k | k in context && SUBMISSION_PREFIX <= k && context[k].SubmissionRecord? :: context[k].submission
  }

  datatype Stage = Collecting | ReadyToReveal | Revealed

  datatype View = View(
    stage: Stage, submissionCount: nat, hiddenCount: nat, revealed: bool, reviewerCanReveal: bool,
    submissions: set<Submission>)

  /** `build_view`, from the submissions and the reveal it read. */
  function BuildView(p: Plan, viewer: Option<string>, found: set<Submission>, revealed: bool): View {
    var visible :=
      if revealed then found
      else if viewer.Some? then set s | s in found && s.agent == viewer.value
      else {};
    var all := |found| == |p.workers|;
    View(
      if revealed then Revealed else if all then ReadyToReveal else Collecting,
      |found|, SaturatingSub(|found|, |visible|), revealed,
      !revealed && all && viewer == Some(p.reviewer), visible)
  }

  // ---- steps -------------------------------------------------------------------------------------

  datatype InFlight =
    | SubmitChecked(submission: Submission)
    | SubmitLocked(submission: Submission)
    | RevealChecked
    | RevealLocked
    | Viewing(viewer: Option<string>, found: set<Submission>, readCount: nat)

  /** A view that was returned; how many submissions there were when it read them, and when it was returned. */
  datatype Shown = Shown(viewer: Option<string>, view: View, readCount: nat, acceptedThen: nat)

  datatype System = System(
    context: map<string, Value>, requests: map<nat, InFlight>, lock: Option<nat>,
    accepted: seq<Submission>, revealCount: nat, shown: seq<Shown>)

  datatype Action =
    | CheckSubmit(request: nat, ordinal: nat, content: string)
    | CheckReveal(request: nat)
    | TakeLock(request: nat)
    | Insert(request: nat)
    | ReadSubmissions(request: nat, viewer: Option<string>)
    | FinishView(request: nat)
    | Abandon(request: nat)
    | WriteForeign(key: string, value: Value)

  /** The view a request returns, with the reveal as it is now. */
  function Answer(p: Plan, s: System, r: InFlight): Shown
    requires r.Viewing?
  {
    Shown(r.viewer, BuildView(p, r.viewer, r.found, REVEAL_KEY in s.context), r.readCount, |s.accepted|)
  }

  predicate Foreign(key: string) { !(SUBMISSION_PREFIX <= key) && key != PLAN_KEY && key != REVEAL_KEY }

  ghost predicate Step(p: Plan, s: System, action: Action, t: System) {
    match action
    case CheckSubmit(id, ordinal, content) =>
      // the plan names the worker; the reveal was read before
      && id !in s.requests && ordinal < |p.workers| && REVEAL_KEY !in s.context
      && t == s.(requests := s.requests[id := SubmitChecked(Submission(ordinal, p.workers[ordinal], content))])
    case CheckReveal(id) =>
      // the caller is the reviewer; every worker's submission was counted
      && id !in s.requests && |Loaded(s.context)| == |p.workers|
      && t == s.(requests := s.requests[id := RevealChecked])
    case TakeLock(id) =>
      && s.lock.None? && id in s.requests
      && (s.requests[id].SubmitChecked? || s.requests[id].RevealChecked?)
      && var key := if s.requests[id].SubmitChecked? then KeyFor(s.requests[id].submission) else REVEAL_KEY;
      t == (
        if key in s.context then s.(requests := s.requests - {id})
        else
          s.(lock := Some(id), requests := s.requests[id :=
            if s.requests[id].SubmitChecked? then SubmitLocked(s.requests[id].submission) else RevealLocked]))
    case Insert(id) =>
      && s.lock == Some(id) && id in s.requests
      && (s.requests[id].SubmitLocked? || s.requests[id].RevealLocked?)
      && t == (
        if s.requests[id].SubmitLocked? then
          var submission := s.requests[id].submission;
          s.(context := s.context[KeyFor(submission) := SubmissionRecord(submission)],
             requests := s.requests - {id}, lock := None, accepted := s.accepted + [submission])
        else
          s.(context := s.context[REVEAL_KEY := RevealRecord],
             requests := s.requests - {id}, lock := None, revealCount := s.revealCount + 1))
    case ReadSubmissions(id, viewer) =>
      && id !in s.requests
      && t == s.(requests := s.requests[id := Viewing(viewer, Loaded(s.context), |s.accepted|)])
    case FinishView(id) =>
      && id in s.requests && s.requests[id].Viewing?
      && t == s.(requests := s.requests - {id}, shown := s.shown + [Answer(p, s, s.requests[id])])
    case Abandon(id) =>
      && id in s.requests
      && t == s.(requests := s.requests - {id}, lock := if s.lock == Some(id) then None else s.lock)
    case WriteForeign(key, value) =>
      Foreign(key) && t == s.(context := s.context[key := value])
  }

  ghost predicate Starts(p: Plan, s: System) {
    && PLAN_KEY in s.context && s.context[PLAN_KEY] == PlanRecord(p)
    && REVEAL_KEY !in s.context && (forall k | k in s.context :: !(SUBMISSION_PREFIX <= k))
    && s.requests == map[] && s.lock == None && s.accepted == [] && s.revealCount == 0 && s.shown == []
  }

  ghost predicate Run(p: Plan, ss: seq<System>, actions: seq<Action>) {
    && WellFormed(p)
    && |ss| == |actions| + 1 && Starts(p, ss[0])
    && forall i | 0 <= i < |actions| :: Step(p, ss[i], actions[i], ss[i + 1])
  }

  // ---- invariants -------------------------------------------------------------------------------------

  function SetOf(accepted: seq<Submission>): set<Submission> { set s | s in accepted }

  function Ordinals(accepted: seq<Submission>): set<nat> { set s | s in accepted :: s.ordinal }

  ghost predicate ByWorkers(p: Plan, accepted: seq<Submission>) {
    && (forall s | s in accepted :: s.ordinal < |p.workers| && s.agent == p.workers[s.ordinal])
    && (forall i, j | 0 <= i < j < |accepted| :: accepted[i].ordinal != accepted[j].ordinal)
  }

  ghost predicate Recorded(p: Plan, s: System) {
    && (forall x | x in s.accepted :: KeyFor(x) in s.context && s.context[KeyFor(x)] == SubmissionRecord(x))
    && (forall k | k in s.context && SUBMISSION_PREFIX <= k :: exists x | x in s.accepted :: KeyFor(x) == k)
    && (REVEAL_KEY in s.context <==> s.revealCount == 1) && s.revealCount <= 1
  }

  /** The reveal record, and every pending reveal, has all submissions behind it. */
  ghost predicate RevealComplete(p: Plan, s: System) {
    && (s.revealCount == 1 ==> |s.accepted| == |p.workers|)
    && (forall id | id in s.requests && (s.requests[id].RevealChecked? || s.requests[id].RevealLocked?) ::
          |s.accepted| == |p.workers|)
  }

  ghost predicate Requested(p: Plan, s: System) {
    && (forall id | id in s.requests && (s.requests[id].SubmitChecked? || s.requests[id].SubmitLocked?) ::
          var x := s.requests[id].submission; x.ordinal < |p.workers| && x.agent == p.workers[x.ordinal])
    && (forall id | id in s.requests && s.requests[id].SubmitLocked? ::
          s.lock == Some(id) && KeyFor(s.requests[id].submission) !in s.context)
    && (forall id | id in s.requests && s.requests[id].RevealLocked? :: s.lock == Some(id) && REVEAL_KEY !in s.context)
    && (forall id | id in s.requests && s.requests[id].Viewing? ::
          Earlier(s.requests[id].found, s.requests[id].readCount, s.accepted))
  }

  /** What a view read is the set of the submissions accepted by then. */
  ghost predicate Earlier(found: set<Submission>, readCount: nat, accepted: seq<Submission>) {
    readCount <= |accepted| && found == SetOf(accepted[..readCount])
  }

  /** A returned view was built from what it read, and shows a reveal only of a complete competition. */
  ghost predicate Honest(p: Plan, accepted: seq<Submission>, shown: Shown) {
    && shown.readCount <= shown.acceptedThen <= |accepted|
    && (shown.view.revealed ==> shown.acceptedThen == |p.workers|)
    && shown.view == BuildView(p, shown.viewer, SetOf(accepted[..shown.readCount]), shown.view.revealed)
  }

  ghost predicate Inv(p: Plan, s: System) {
    && ByWorkers(p, s.accepted) && Recorded(p, s) && RevealComplete(p, s) && Requested(p, s)
    && (forall x | x in s.shown :: Honest(p, s.accepted, x))
  }

  lemma AppendSets(accepted: seq<Submission>, x: Submission)
    ensures SetOf(accepted + [x]) == SetOf(accepted) + {x}
    ensures Ordinals(accepted + [x]) == Ordinals(accepted) + {x.ordinal}
  {
    assert forall y | y in accepted + [x] :: y in accepted || y == x;
    assert forall y | y in accepted :: y in accepted + [x];
    assert (accepted + [x])[|accepted|] == x;
  }

  lemma {:induction false} Sizes(accepted: seq<Submission>)
    requires forall i, j | 0 <= i < j < |accepted| :: accepted[i].ordinal != accepted[j].ordinal
    ensures |SetOf(accepted)| == |Ordinals(accepted)| == |accepted|
  {
    if accepted == [] {
      assert SetOf(accepted) == {} && Ordinals(accepted) == {};
    } else {
      var init, last := accepted[..|accepted| - 1], accepted[|accepted| - 1];
      Sizes(init);
      SizesStep(init, last);
      assert init + [last] == accepted;
    }
  }

  lemma SizesStep(init: seq<Submission>, last: Submission)
    requires |SetOf(init)| == |Ordinals(init)| == |init|
    requires forall x | x in init :: x.ordinal != last.ordinal
    ensures |SetOf(init + [last])| == |Ordinals(init + [last])| == |init| + 1
  {
    AppendSets(init, last);
    assert last.ordinal !in Ordinals(init) && last !in SetOf(init);
  }

  /** When as many submissions as workers are accepted, every worker has submitted. */
  lemma FullMeansEveryone(p: Plan, accepted: seq<Submission>)
    requires ByWorkers(p, accepted)
    ensures |accepted| <= |p.workers|
    ensures |accepted| == |p.workers| ==> forall o: nat | o < |p.workers| :: o in Ordinals(accepted)
  {
    Sizes(accepted);
    SubsetSize(Ordinals(accepted), Range(|p.workers|));
  }

  lemma LoadedIsAccepted(p: Plan, s: System)
    requires Recorded(p, s)
    ensures Loaded(s.context) == SetOf(s.accepted)
  {
    forall x
      ensures x in Loaded(s.context) <==> x in s.accepted
    {
      OrdinalKeyInjective(SUBMISSION_PREFIX, x.ordinal, x.ordinal);
      if x in s.accepted {
        assert KeyFor(x) in s.context;
      }
    }
  }

  lemma EarlierExtends(found: set<Submission>, readCount: nat, accepted: seq<Submission>, x: Submission)
    requires Earlier(found, readCount, accepted)
    ensures Earlier(found, readCount, accepted + [x])
  {
    assert (accepted + [x])[..readCount] == accepted[..readCount];
  }

  lemma HonestExtends(p: Plan, accepted: seq<Submission>, x: Submission, shown: Shown)
    requires Honest(p, accepted, shown)
    ensures Honest(p, accepted + [x], shown)
  {
    assert (accepted + [x])[..shown.readCount] == accepted[..shown.readCount];
  }

  /** A recorded submission is one of the keys the context has; an unrecorded one is new. */
  lemma NotYetAccepted(p: Plan, s: System, x: Submission)
    requires Recorded(p, s) && KeyFor(x) !in s.context
    ensures forall y | y in s.accepted :: y.ordinal != x.ordinal
  {
    forall y | y in s.accepted
      ensures y.ordinal != x.ordinal
    {
      assert KeyFor(y) in s.context;
    }
  }

  lemma InsertSubmission(p: Plan, s: System, id: nat, t: System)
    requires WellFormed(p) && Inv(p, s) && Step(p, s, Insert(id), t) && s.requests[id].SubmitLocked?
    ensures Inv(p, t) && s.accepted <= t.accepted
  {
    var x := s.requests[id].submission;
    NotYetAccepted(p, s, x);
    AcceptOne(p, s.accepted, x);
    SubmissionRecorded(p, s, x, t);
    hide WellFormed, ByWorkers, Recorded, KeyFor, BuildView;
    forall y | y in t.shown
      ensures Honest(p, t.accepted, y)
    {
      HonestExtends(p, s.accepted, x, y);
    }
    forall other | other in t.requests
      ensures other in s.requests && t.requests[other] == s.requests[other]
      ensures t.requests[other].Viewing? ==>
          Earlier(t.requests[other].found, t.requests[other].readCount, t.accepted)
    {
      if t.requests[other].Viewing? {
        EarlierExtends(t.requests[other].found, t.requests[other].readCount, s.accepted, x);
      }
    }
  }

  /** A new submission fits below the number of workers, so the competition was not complete before it. */
  lemma AcceptOne(p: Plan, accepted: seq<Submission>, x: Submission)
    requires ByWorkers(p, accepted) && x.ordinal < |p.workers| && x.agent == p.workers[x.ordinal]
    requires forall y | y in accepted :: y.ordinal != x.ordinal
    ensures ByWorkers(p, accepted + [x])
    ensures |accepted| < |p.workers|
  {
    assert forall i | 0 <= i < |accepted| :: accepted[i] in accepted;
    FullMeansEveryone(p, accepted + [x]);
  }

  lemma SubmissionRecorded(p: Plan, s: System, x: Submission, t: System)
    requires Recorded(p, s) && KeyFor(x) !in s.context
    requires t.context == s.context[KeyFor(x) := SubmissionRecord(x)]
    requires t.accepted == s.accepted + [x] && t.revealCount == s.revealCount
    ensures Recorded(p, t)
  {
    NotYetAccepted(p, s, x);
    RevealKeyIsNoSubmission(KeyFor(x)) by { OrdinalKeyInjective(SUBMISSION_PREFIX, x.ordinal, 0); }
    hide KeyFor;
    assert t.accepted[|s.accepted|] == x;
    assert forall y | y in s.accepted :: y in t.accepted;
  }

  lemma RevealKeyIsNoSubmission(key: string)
    requires SUBMISSION_PREFIX <= key
    ensures key != REVEAL_KEY
  {
    assert REVEAL_KEY[15] == 'r' && SUBMISSION_PREFIX[15] == 's' && key[15] == SUBMISSION_PREFIX[15];
  }

  lemma RevealKeyUnprefixed()
    ensures !(SUBMISSION_PREFIX <= REVEAL_KEY)
  {
    assert REVEAL_KEY[15] == 'r' && SUBMISSION_PREFIX[15] == 's';
  }

  lemma InsertReveal(p: Plan, s: System, id: nat, t: System)
    requires Inv(p, s) && Step(p, s, Insert(id), t) && s.requests[id].RevealLocked?
    ensures Inv(p, t)
  {
    AcceptedKeys(s.accepted);
    RevealKeyUnprefixed();
    hide ByWorkers, KeyFor, BuildView, Honest, Earlier;
    forall other | other in t.requests
      ensures t.requests[other] == s.requests[other]
      ensures !t.requests[other].RevealLocked? && !t.requests[other].SubmitLocked?
    {
    }
  }

  lemma CheckRevealKeeps(p: Plan, s: System, id: nat, t: System)
    requires Inv(p, s) && Step(p, s, CheckReveal(id), t)
    ensures Inv(p, t)
  {
    LoadedIsAccepted(p, s);
    Sizes(s.accepted);
    hide ByWorkers, KeyFor, BuildView, Honest, Earlier, Recorded;
  }

  lemma ReadKeeps(p: Plan, s: System, id: nat, viewer: Option<string>, t: System)
    requires Inv(p, s) && Step(p, s, ReadSubmissions(id, viewer), t)
    ensures Inv(p, t)
  {
    LoadedIsAccepted(p, s);
    assert s.accepted[..|s.accepted|] == s.accepted;
    assert Earlier(Loaded(s.context), |s.accepted|, s.accepted);
    hide ByWorkers, KeyFor, BuildView, Honest, Earlier, Recorded;
  }

  lemma ForeignKeeps(p: Plan, s: System, key: string, value: Value, t: System)
    requires Inv(p, s) && Step(p, s, WriteForeign(key, value), t)
    ensures Inv(p, t)
  {
    AcceptedKeys(s.accepted);
    forall id | id in s.requests && s.requests[id].SubmitLocked?
      ensures KeyFor(s.requests[id].submission) != key
    {
      OrdinalKeyInjective(SUBMISSION_PREFIX, s.requests[id].submission.ordinal, 0);
    }
    hide ByWorkers, KeyFor, BuildView, Honest, Earlier;
  }

  lemma RequestOnlyKeeps(p: Plan, s: System, action: Action, t: System)
    requires Inv(p, s) && Step(p, s, action, t) && (action.CheckSubmit? || action.TakeLock? || action.Abandon?)
    ensures Inv(p, t) && t.accepted == s.accepted
  {
    hide ByWorkers, KeyFor, BuildView, Honest, Earlier, Recorded;
    assert t.context == s.context && t.accepted == s.accepted && t.revealCount == s.revealCount && t.shown == s.shown;
    SameRecords(p, s, t);
  }

  lemma SameRecords(p: Plan, s: System, t: System)
    requires t.context == s.context && t.accepted == s.accepted && t.revealCount == s.revealCount
    ensures Recorded(p, s) ==> Recorded(p, t)
  {
  }

  lemma StepKeepsInv(p: Plan, s: System, action: Action, t: System)
    requires WellFormed(p) && Inv(p, s) && Step(p, s, action, t)
    ensures Inv(p, t) && s.accepted <= t.accepted
  {
    match action
    case Insert(id) =>
      if s.requests[id].SubmitLocked? {
        InsertSubmission(p, s, id, t);
      } else {
        InsertReveal(p, s, id, t);
      }
    case CheckReveal(id) => CheckRevealKeeps(p, s, id, t);
    case ReadSubmissions(id, viewer) => ReadKeeps(p, s, id, viewer, t);
    case FinishView(id) => FinishKeeps(p, s, id, t);
    case WriteForeign(key, value) => ForeignKeeps(p, s, key, value, t);
    case _ => RequestOnlyKeeps(p, s, action, t);
  }

  lemma AcceptedKeys(accepted: seq<Submission>)
    ensures forall x | x in accepted :: SUBMISSION_PREFIX <= KeyFor(x) && KeyFor(x) != REVEAL_KEY
  {
    forall x | x in accepted
      ensures SUBMISSION_PREFIX <= KeyFor(x) && KeyFor(x) != REVEAL_KEY
    {
      OrdinalKeyInjective(SUBMISSION_PREFIX, x.ordinal, 0);
      RevealKeyIsNoSubmission(KeyFor(x));
    }
  }

  lemma FinishKeeps(p: Plan, s: System, id: nat, t: System)
    requires Inv(p, s) && Step(p, s, FinishView(id), t)
    ensures Inv(p, t)
  {
    hide ByWorkers, KeyFor, BuildView;
    var r, revealed := s.requests[id], REVEAL_KEY in s.context;
    var shown := Answer(p, s, r);
    ViewSaysRevealed(p, r.viewer, r.found, revealed);
    assert Honest(p, s.accepted, shown);
    assert forall x | x in t.shown :: x in s.shown || x == shown;
  }

  lemma ViewSaysRevealed(p: Plan, viewer: Option<string>, found: set<Submission>, revealed: bool)
    ensures BuildView(p, viewer, found, revealed).revealed == revealed
  {
  }

  lemma {:induction false} RunKeepsInv(p: Plan, ss: seq<System>, actions: seq<Action>, i: nat, j: nat)
    requires Run(p, ss, actions) && i <= j < |ss|
    ensures Inv(p, ss[j])
    ensures ss[i].accepted <= ss[j].accepted
  {
    hide Step, Inv;
    if i < j {
      RunKeepsInv(p, ss, actions, i, j - 1);
      StepKeepsInv(p, ss[j - 1], actions[j - 1], ss[j]);
    } else if j > 0 {
      RunKeepsInv(p, ss, actions, j - 1, j - 1);
      StepKeepsInv(p, ss[j - 1], actions[j - 1], ss[j]);
    } else {
      StartHasInv(p, ss[0]);
    }
  }

  lemma StartHasInv(p: Plan, s: System)
    requires Starts(p, s)
    ensures Inv(p, s)
  {
  }

  // ---- the theorems ------------------------------------------------------------------------------------

  ghost predicate HasSubmitted(p: Plan, accepted: seq<Submission>, o: nat)
    requires o < |p.workers|
  {
    exists x | x in accepted :: x.ordinal == o && x.agent == p.workers[o]
  }

  /**
   * In every interleaving a competition is revealed at most once; when it is, every worker has
   * submitted exactly once; and no submission lands afterwards.
   */
  lemma RevealIsFinal(p: Plan, ss: seq<System>, actions: seq<Action>, i: nat, j: nat)
    requires Run(p, ss, actions) && i <= j < |ss|
    ensures ss[j].revealCount <= 1
    ensures ss[i].revealCount == 1 ==>
        && |ss[i].accepted| == |p.workers|
        && (forall o: nat | o < |p.workers| :: HasSubmitted(p, ss[i].accepted, o))
        && ss[j].accepted == ss[i].accepted && Loaded(ss[j].context) == SetOf(ss[i].accepted)
  {
    RunKeepsInv(p, ss, actions, i, j);
    RunKeepsInv(p, ss, actions, i, i);
    FullMeansEveryone(p, ss[i].accepted);
    FullMeansEveryone(p, ss[j].accepted);
    LoadedIsAccepted(p, ss[j]);
    forall o: nat | ss[i].revealCount == 1 && o < |p.workers|
      ensures HasSubmitted(p, ss[i].accepted, o)
    {
      assert o in Ordinals(ss[i].accepted);
    }
  }

  /** The steps `k` and `f` of the run at which the view read the submissions and read the reveal. */
  ghost predicate ReadAt(p: Plan, ss: seq<System>, actions: seq<Action>, k: nat, f: nat, shown: Shown)
    requires |ss| == |actions| + 1
  {
    && k < f < |actions|
    && actions[k].ReadSubmissions? && actions[k].viewer == shown.viewer
    && actions[f] == FinishView(actions[k].request)
    && shown.readCount == |ss[k].accepted|
    && shown.view == BuildView(p, shown.viewer, SetOf(ss[k].accepted), ss[f].revealCount == 1)
  }

  /** The step at which a pending view read. */
  ghost predicate PendingSince(ss: seq<System>, actions: seq<Action>, k: nat, id: nat, r: InFlight)
    requires |ss| == |actions| + 1 && r.Viewing?
  {
    && k < |actions| && actions[k] == ReadSubmissions(id, r.viewer)
    && r.found == Loaded(ss[k].context) && r.readCount == |ss[k].accepted|
  }

  /** A view in flight was begun at some earlier step. */
  lemma {:induction false} ViewBegan(p: Plan, ss: seq<System>, actions: seq<Action>, i: nat, id: nat)
    requires Run(p, ss, actions) && i < |ss| && id in ss[i].requests && ss[i].requests[id].Viewing?
    ensures exists k: nat :: k < i && PendingSince(ss, actions, k, id, ss[i].requests[id])
  {
    if i > 0 {
      var s, t := ss[i - 1], ss[i];
      assert Step(p, s, actions[i - 1], t);
      if id in s.requests && s.requests[id] == t.requests[id] {
        ViewBegan(p, ss, actions, i - 1, id);
      } else {
        OnlyReadBegins(p, s, actions[i - 1], t, id);
        assert PendingSince(ss, actions, i - 1, id, t.requests[id]);
      }
    }
  }

  lemma OnlyReadBegins(p: Plan, s: System, action: Action, t: System, id: nat)
    requires Step(p, s, action, t) && id in t.requests && t.requests[id].Viewing?
    ensures (id in s.requests && s.requests[id] == t.requests[id])
        || (action == ReadSubmissions(id, t.requests[id].viewer)
            && t.requests[id] == Viewing(t.requests[id].viewer, Loaded(s.context), |s.accepted|))
  {
    hide KeyFor, Loaded, BuildView, Foreign;
  }

  /** A returned view was returned by some earlier step. */
  lemma {:induction false} ViewEnded(p: Plan, ss: seq<System>, actions: seq<Action>, i: nat, shown: Shown)
    requires Run(p, ss, actions) && i < |ss| && shown in ss[i].shown
    ensures exists f: nat :: f < i && FinishedAt(p, ss, actions, f, shown)
  {
    if i > 0 {
      var s, t := ss[i - 1], ss[i];
      assert Step(p, s, actions[i - 1], t);
      if shown in s.shown {
        ViewEnded(p, ss, actions, i - 1, shown);
      } else {
        OnlyFinishShows(p, s, actions[i - 1], t, shown);
        assert FinishedAt(p, ss, actions, i - 1, shown);
      }
    }
  }

  ghost predicate FinishedAt(p: Plan, ss: seq<System>, actions: seq<Action>, f: nat, shown: Shown)
    requires |ss| == |actions| + 1
  {
    && f < |actions| && actions[f].FinishView?
    && actions[f].request in ss[f].requests && ss[f].requests[actions[f].request].Viewing?
    && shown == Answer(p, ss[f], ss[f].requests[actions[f].request])
  }

  lemma OnlyFinishShows(p: Plan, s: System, action: Action, t: System, shown: Shown)
    requires Step(p, s, action, t) && shown in t.shown && shown !in s.shown
    ensures action.FinishView? && action.request in s.requests && s.requests[action.request].Viewing?
    ensures shown == Answer(p, s, s.requests[action.request])
  {
    hide KeyFor, Loaded, BuildView, Foreign;
  }

  /** Every view shows the submissions as they were when it read them, and the reveal as it was when it read that. */
  lemma ViewIsTwoReads(p: Plan, ss: seq<System>, actions: seq<Action>, i: nat, shown: Shown)
    requires Run(p, ss, actions) && i < |ss| && shown in ss[i].shown
    ensures exists k: nat, f: nat :: f < i && ReadAt(p, ss, actions, k, f, shown)
  {
    ViewEnded(p, ss, actions, i, shown);
    var f: nat :| f < i && FinishedAt(p, ss, actions, f, shown);
    var id := actions[f].request;
    ViewBegan(p, ss, actions, f, id);
    var k: nat :| k < f && PendingSince(ss, actions, k, id, ss[f].requests[id]);
    RunLoads(p, ss, actions, k);
    RunLoads(p, ss, actions, f);
    hide BuildView, Loaded, Run;
    assert ReadAt(p, ss, actions, k, f, shown);
  }

  lemma RunLoads(p: Plan, ss: seq<System>, actions: seq<Action>, i: nat)
    requires Run(p, ss, actions) && i < |ss|
    ensures Loaded(ss[i].context) == SetOf(ss[i].accepted) && (REVEAL_KEY in ss[i].context <==> ss[i].revealCount == 1)
  {
    RunKeepsInv(p, ss, actions, i, i);
    LoadedIsAccepted(p, ss[i]);
  }

  /**
   * Whatever interleaves with a view: visible plus hidden is the count it reports, which is the number
   * accepted when it read; a revealed view shows all of those, and everyone has submitted by then;
   * and before the reveal a worker sees exactly the own submission, if it was accepted before the read.
   */
  lemma ViewsAreHonest(p: Plan, ss: seq<System>, actions: seq<Action>, i: nat, shown: Shown)
    requires Run(p, ss, actions) && i < |ss| && shown in ss[i].shown
    ensures shown.readCount <= |ss[i].accepted|
    ensures |shown.view.submissions| + shown.view.hiddenCount == shown.view.submissionCount == shown.readCount
    ensures shown.view.revealed ==>
        |ss[i].accepted| == |p.workers| && shown.view.submissions == SetOf(ss[i].accepted[..shown.readCount])
    ensures !shown.view.revealed ==>
        forall x :: x in shown.view.submissions <==>
          x in ss[i].accepted[..shown.readCount] && Some(x.agent) == shown.viewer
    ensures forall n | 0 <= n < shown.readCount && Some(ss[i].accepted[n].agent) == shown.viewer ::
        && ss[i].accepted[n] in shown.view.submissions
        && (!shown.view.revealed ==> shown.view.submissions == {ss[i].accepted[n]})
    ensures shown.view.stage ==
        if shown.view.revealed then Revealed else if shown.readCount == |p.workers| then ReadyToReveal else Collecting
    ensures shown.view.reviewerCanReveal <==>
        !shown.view.revealed && shown.readCount == |p.workers| && shown.viewer == Some(p.reviewer)
  {
    RunKeepsInv(p, ss, actions, i, i);
    var accepted := ss[i].accepted;
    var read := accepted[..shown.readCount];
    FullMeansEveryone(p, accepted);
    Sizes(read);
    assert Honest(p, accepted, shown);
    ViewOfRead(p, shown.viewer, read, shown.view.revealed);
    forall n | 0 <= n < shown.readCount && Some(accepted[n].agent) == shown.viewer
      ensures accepted[n] in shown.view.submissions
      ensures !shown.view.revealed ==> shown.view.submissions == {accepted[n]}
    {
      assert read[n] == accepted[n];
      OwnEntry(p, accepted, read, n);
    }
  }

  /** What a view of the submissions `read` shows. */
  lemma ViewOfRead(p: Plan, viewer: Option<string>, read: seq<Submission>, revealed: bool)
    requires |SetOf(read)| == |read|
    ensures var view := BuildView(p, viewer, SetOf(read), revealed);
      && |view.submissions| + view.hiddenCount == view.submissionCount == |read|
      && (revealed ==> view.submissions == SetOf(read))
      && (!revealed ==> forall x :: x in view.submissions <==> x in read && Some(x.agent) == viewer)
      && view.stage == (if revealed then Revealed else if |read| == |p.workers| then ReadyToReveal else Collecting)
      && (view.reviewerCanReveal <==> !revealed && |read| == |p.workers| && viewer == Some(p.reviewer))
      && view.revealed == revealed
  {
    SubsetSize(BuildView(p, viewer, SetOf(read), revealed).submissions, SetOf(read));
  }

  /** A worker has no second submission. */
  lemma OwnEntry(p: Plan, accepted: seq<Submission>, read: seq<Submission>, n: nat)
    requires WellFormed(p) && ByWorkers(p, accepted) && read <= accepted && n < |read|
    ensures forall x | x in read && x.agent == read[n].agent :: x == read[n]
  {
    forall x | x in read && x.agent == read[n].agent
      ensures x == read[n]
    {
      var m :| 0 <= m < |read| && read[m] == x;
      assert accepted[m] == x && accepted[n] == read[n] && x in accepted && read[n] in accepted;
    }
  }

  /** A revealed view shows the final set exactly when every worker had been accepted when it read the submissions. */
  lemma RevealedViewCompleteIff(p: Plan, ss: seq<System>, actions: seq<Action>, i: nat, shown: Shown)
    requires Run(p, ss, actions) && i < |ss| && shown in ss[i].shown && shown.view.revealed
    ensures shown.view.submissions == SetOf(ss[i].accepted) <==> shown.readCount == |p.workers|
    ensures exists k: nat, f: nat :: f < i && ReadAt(p, ss, actions, k, f, shown) && ss[f].revealCount == 1
  {
    ViewsAreHonest(p, ss, actions, i, shown);
    ViewIsTwoReads(p, ss, actions, i, shown);
    var k: nat, f: nat :| f < i && ReadAt(p, ss, actions, k, f, shown);
    ViewSaysRevealed(p, shown.viewer, SetOf(ss[k].accepted), ss[f].revealCount == 1);
    RunKeepsInv(p, ss, actions, i, i);
    var accepted := ss[i].accepted;
    Sizes(accepted);
    Sizes(accepted[..shown.readCount]);
    SubsetSize(SetOf(accepted[..shown.readCount]), SetOf(accepted));
    if shown.readCount == |p.workers| {
      assert accepted[..shown.readCount] == accepted;
    }
  }

  // ---- a revealed view need not be complete ----------------------------------------------------------------

  /** One step of the run below: it is a step, it keeps the invariant, and so its context loads what was accepted. */
  lemma Extend(p: Plan, ss: seq<System>, actions: seq<Action>, action: Action, t: System)
    requires Run(p, ss, actions) && Step(p, ss[|ss| - 1], action, t)
    ensures Run(p, ss + [t], actions + [action])
    ensures Inv(p, t) && Loaded(t.context) == SetOf(t.accepted)
  {
    hide Step, Inv;
    var rr, aa := ss + [t], actions + [action];
    forall i | 0 <= i < |aa|
      ensures Step(p, rr[i], aa[i], rr[i + 1])
    {
      if i < |actions| {
        assert Step(p, ss[i], actions[i], ss[i + 1]);
      }
    }
    RunKeepsInv(p, rr, aa, |aa|, |aa|);
    assert rr[|aa|] == t;
    InvLoads(p, t);
  }

  lemma InvLoads(p: Plan, t: System)
    requires Inv(p, t)
    ensures Loaded(t.context) == SetOf(t.accepted)
  {
    LoadedIsAccepted(p, t);
  }

  /** Checking, locking and inserting a submission nobody interferes with. */
  lemma SubmitAlone(p: Plan, ss: seq<System>, actions: seq<Action>, id: nat, o: nat)
    returns (rr: seq<System>, aa: seq<Action>)
    requires Run(p, ss, actions)
    requires var s := ss[|ss| - 1];
      && id !in s.requests && s.lock == None && o < |p.workers| && REVEAL_KEY !in s.context
      && o !in Ordinals(s.accepted)
    ensures Run(p, rr, aa)
    ensures var s, t, x := ss[|ss| - 1], rr[|rr| - 1], Submission(o, p.workers[o], "");
      && t == s.(accepted := s.accepted + [x], context := t.context)
      && REVEAL_KEY !in t.context && Loaded(t.context) == SetOf(t.accepted)
  {
    var s, x := ss[|ss| - 1], Submission(o, p.workers[o], "");
    RunKeepsInv(p, ss, actions, |ss| - 1, |ss| - 1);
    FreshKey(p, s, x);
    hide KeyFor, Inv, Loaded;
    var s1 := s.(requests := s.requests[id := SubmitChecked(x)]);
    Extend(p, ss, actions, CheckSubmit(id, o, ""), s1);
    var s2 := s1.(lock := Some(id), requests := s1.requests[id := SubmitLocked(x)]);
    Extend(p, ss + [s1], actions + [CheckSubmit(id, o, "")], TakeLock(id), s2);
    var s3 := s2.(
      context := s2.context[KeyFor(x) := SubmissionRecord(x)], requests := s2.requests - {id}, lock := None,
      accepted := s2.accepted + [x]);
    Extend(p, ss + [s1] + [s2], actions + [CheckSubmit(id, o, "")] + [TakeLock(id)], Insert(id), s3);
    rr, aa := ss + [s1] + [s2] + [s3], actions + [CheckSubmit(id, o, "")] + [TakeLock(id)] + [Insert(id)];
    assert s3.requests == s.requests;
  }

  lemma FreshKey(p: Plan, s: System, x: Submission)
    requires Inv(p, s) && x.ordinal !in Ordinals(s.accepted)
    ensures KeyFor(x) !in s.context && KeyFor(x) != REVEAL_KEY
  {
    OrdinalKeyInjective(SUBMISSION_PREFIX, x.ordinal, 0);
    RevealKeyIsNoSubmission(KeyFor(x));
    if KeyFor(x) in s.context {
      var y :| y in s.accepted && KeyFor(y) == KeyFor(x);
      OrdinalKeyInjective(SUBMISSION_PREFIX, x.ordinal, y.ordinal);
      assert false;
    }
  }

  /** Checking, locking and inserting a reveal nobody interferes with. */
  lemma RevealAlone(p: Plan, ss: seq<System>, actions: seq<Action>, id: nat)
    returns (rr: seq<System>, aa: seq<Action>)
    requires Run(p, ss, actions)
    requires var s := ss[|ss| - 1];
      id !in s.requests && s.lock == None && REVEAL_KEY !in s.context && |Loaded(s.context)| == |p.workers|
    ensures Run(p, rr, aa)
    ensures var s, t := ss[|ss| - 1], rr[|rr| - 1];
      t == s.(context := t.context, revealCount := s.revealCount + 1) && REVEAL_KEY in t.context
  {
    hide Inv, Loaded;
    var s := ss[|ss| - 1];
    var s1 := s.(requests := s.requests[id := RevealChecked]);
    Extend(p, ss, actions, CheckReveal(id), s1);
    var s2 := s1.(lock := Some(id), requests := s1.requests[id := RevealLocked]);
    Extend(p, ss + [s1], actions + [CheckReveal(id)], TakeLock(id), s2);
    var s3 := s2.(
      context := s2.context[REVEAL_KEY := RevealRecord], requests := s2.requests - {id}, lock := None,
      revealCount := s2.revealCount + 1);
    Extend(p, ss + [s1] + [s2], actions + [CheckReveal(id)] + [TakeLock(id)], Insert(id), s3);
    rr, aa := ss + [s1] + [s2] + [s3], actions + [CheckReveal(id)] + [TakeLock(id)] + [Insert(id)];
    assert s3.requests == s.requests;
  }

  /** The first worker submits, and somebody starts to read a view. */
  lemma HalfRead(p: Plan) returns (ss: seq<System>, actions: seq<Action>)
    requires WellFormed(p) && |p.workers| == 2
    ensures Run(p, ss, actions)
    ensures var s, x := ss[|ss| - 1], Submission(0, p.workers[0], "");
      && s.requests == map[9 := Viewing(None, {x}, 1)] && s.lock == None && s.accepted == [x] && s.shown == []
      && REVEAL_KEY !in s.context
  {
    var start := System(map[PLAN_KEY := PlanRecord(p)], map[], None, [], 0, []);
    PlanKeyPlain();
    assert Run(p, [start], []);
    var rr, aa := SubmitAlone(p, [start], [], 0, 0);
    hide Inv, Loaded;
    var s := rr[|rr| - 1];
    var x := Submission(0, p.workers[0], "");
    assert s.accepted == [x] && SetOf([x]) == {x};
    var t := s.(requests := s.requests[9 := Viewing(None, Loaded(s.context), 1)]);
    Extend(p, rr, aa, ReadSubmissions(9, None), t);
    ss, actions := rr + [t], aa + [ReadSubmissions(9, None)];
  }

  /**
   * A view reads the submissions before the reveal, under a separate lock; if the last worker
   * submits and the reviewer reveals in between, it reports a reveal of an incomplete set.
   */
  lemma RevealedViewCanBePartial(p: Plan)
    requires WellFormed(p) && |p.workers| == 2
    ensures exists ss: seq<System>, actions: seq<Action>, i: nat, shown: Shown
        | Run(p, ss, actions) && i < |ss| && shown in ss[i].shown ::
        shown.view.revealed && shown.view.submissions != SetOf(ss[i].accepted)
  {
    hide Inv, Loaded, Run;
    var x, y := Submission(0, p.workers[0], ""), Submission(1, p.workers[1], "");
    var s0, a0 := HalfRead(p);
    assert |s0| > 0 by { RunNonempty(p, s0, a0); }
    assert 1 !in Ordinals([x]);
    var s1, a1 := SubmitAlone(p, s0, a0, 1, 1);
    assert |s1| > 0 by { RunNonempty(p, s1, a1); }
    var s := s1[|s1| - 1];
    assert s.accepted == [x, y] && SetOf([x, y]) == {x, y};
    var s2, a2 := RevealAlone(p, s1, a1, 2);
    assert |s2| > 0 by { RunNonempty(p, s2, a2); }
    var t := s2[|s2| - 1];
    var shown := Shown(None, BuildView(p, None, {x}, true), 1, 2);
    var u := t.(requests := t.requests - {9}, shown := t.shown + [shown]);
    Extend(p, s2, a2, FinishView(9), u);
    var all, done := s2 + [u], a2 + [FinishView(9)];
    assert all[|s2|] == u && shown in u.shown;
    assert y in SetOf(u.accepted) && y !in shown.view.submissions;
  }

  lemma RunNonempty(p: Plan, ss: seq<System>, actions: seq<Action>)
    requires Run(p, ss, actions)
    ensures |ss| > 0
  {
  }

  lemma PlanKeyPlain()
    ensures PLAN_KEY != REVEAL_KEY && !(SUBMISSION_PREFIX <= PLAN_KEY)
  {
    assert PLAN_KEY[15] == 'p' && REVEAL_KEY[15] == 'r' && SUBMISSION_PREFIX[15] == 's';
  }
}
