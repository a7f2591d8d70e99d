/** What the policy engine promises of every decision. */
module PolicyTheorems {
  import opened Prelude
  import opened WorkflowModes
  import opened Text
  import opened Sequences
  import opened PolicyTypes
  import opened PolicyRules
  import opened PolicyDecision
  import opened PolicySelection

  // ---- the frame ---------------------------------------------------------------------------

  /** A degradation that lets work start is only ever in force for harmless tasks. */
  lemma FrameLaws(task: Task)
    requires ValidTask(task)
    ensures var f := FrameOf(task);
      && (BehaviorRank(f.behavior) < BehaviorRank(QueueUntilAvailable) ==>
            && f.required == [] && f.reviewer.None? && f.target == StandardWorkflow
            && RiskRank(f.risk) <= RiskRank(Medium) && !task.repositoryWrite && task.sensitivity != Restricted
            && (f.behavior == ReduceProviderCount ==> f.risk == Low))
      && (f.reviewer.Some? ==> f.mode == Consensus && f.reviewer.value in f.required)
      && ProtocolMode(f.protocol) == f.mode
      && f.target == ExecutionTarget(f.protocol)
      && ModeRank(f.mode) >= ModeRank(MinimumMode(f.risk, task.sensitivity, task.repositoryWrite))
      && Positive(f.budget) && f.budget.maxCost <= ABS_MAX_COST
  {
    hide RequiredSelection, ReviewerKey, EffectiveRisk, SecuritySensitive, Capabilities, ClampBudget, BudgetProfile,
      Within, TrimAll, ValidTask, Ascending;
    var f := FrameOf(task);
    RequiredLaws(task);
    WriteRaisesRisk(task);
    ClampedBudgetBounds(task.requestedBudget, f.budgetRisk);
    assert f.budget.maxCost <= ABS_MAX_COST by { CostCeilingIsAbsolute(task.requestedBudget, f.budgetRisk); }
    if f.reviewer.Some? {
      assert f.reviewer.value in RequiredSelection(task);
    }
  }

  lemma WriteRaisesRisk(task: Task)
    ensures task.repositoryWrite ==> RiskRank(EffectiveRisk(task)) >= RiskRank(Medium)
    ensures task.sensitivity == Restricted ==> EffectiveRisk(task) == Critical
  {
  }

  lemma CostCeilingIsAbsolute(b: RequestedBudget, risk: TaskRisk)
    ensures ClampBudget(b, BudgetProfile(risk)).maxCost <= ABS_MAX_COST
  {
  }

  lemma ElevationMonotone(task: Task, higher: TaskRisk)
    requires RiskRank(task.risk) <= RiskRank(higher)
    ensures RiskRank(task.risk) <= RiskRank(EffectiveRisk(task))
    ensures RiskRank(EffectiveRisk(task)) <= RiskRank(EffectiveRisk(task.(risk := higher)))
  {
  }

  lemma ModeMonotone(
    low: TaskRisk, high: TaskRisk, sensitivity: Sensitivity, write: bool, mode: Option<Mode>,
    protocol: Option<Protocol>, reviewerMode: Mode)
    requires RiskRank(low) <= RiskRank(high)
    ensures var a, b := MinimumMode(low, sensitivity, write), MinimumMode(high, sensitivity, write);
      var ma, mb := if mode.Some? then mode.value else a, if mode.Some? then mode.value else b;
      var pa := if protocol.Some? then protocol.value else DefaultProtocol(ma);
      var pb := if protocol.Some? then protocol.value else DefaultProtocol(mb);
      var ra := SaferMode(SaferMode(a, ProtocolMode(pa)), reviewerMode);
      var rb := SaferMode(SaferMode(b, ProtocolMode(pb)), reviewerMode);
      && ModeRank(ra) <= ModeRank(rb)
      && ModeRank(SaferMode(ma, ra)) <= ModeRank(SaferMode(mb, rb))
      && RiskRank(BudgetRisk(ra, low)) <= RiskRank(BudgetRisk(rb, high))
  {
    var a, b := MinimumMode(low, sensitivity, write), MinimumMode(high, sensitivity, write);
    assert ModeRank(a) <= ModeRank(b);
    hide MinimumMode, BudgetRisk;
    var ma, mb := if mode.Some? then mode.value else a, if mode.Some? then mode.value else b;
    var pa := if protocol.Some? then protocol.value else DefaultProtocol(ma);
    var pb := if protocol.Some? then protocol.value else DefaultProtocol(mb);
    assert ModeRank(ProtocolMode(pa)) <= ModeRank(ProtocolMode(pb));
    hide ProtocolMode, DefaultProtocol;
    BudgetRiskMonotone(
      SaferMode(SaferMode(a, ProtocolMode(pa)), reviewerMode), SaferMode(SaferMode(b, ProtocolMode(pb)), reviewerMode),
      low, high);
  }

  lemma BudgetRiskMonotone(a: Mode, b: Mode, low: TaskRisk, high: TaskRisk)
    requires RiskRank(low) <= RiskRank(high)
    ensures ModeRank(a) <= ModeRank(b) ==> RiskRank(BudgetRisk(a, low)) <= RiskRank(BudgetRisk(b, high))
  {
  }

  /** Stating a higher task risk never weakens the mode, the degradation policy, the approval or the ceilings. */
  lemma RiskNeverWeakens(task: Task, higher: TaskRisk)
    requires RiskRank(task.risk) <= RiskRank(higher)
    ensures var f, g := FrameOf(task), FrameOf(task.(risk := higher));
      && RiskRank(f.risk) <= RiskRank(g.risk)
      && ModeRank(f.mode) <= ModeRank(g.mode)
      && BehaviorRank(f.defaultBehavior) <= BehaviorRank(g.defaultBehavior)
      && BehaviorRank(f.behavior) <= BehaviorRank(g.behavior)
      && (f.approval ==> g.approval)
      && RiskRank(f.budgetRisk) <= RiskRank(g.budgetRisk)
  {
    hide RequiredSelection, ReviewerKey, EffectiveRisk, ClampBudget, BudgetProfile, SelectedProtocol, ExecutionTarget,
      EffectiveBehavior, MinimumMode, SaferMode, DefaultBehavior, BudgetRisk, DefaultProtocol, ProtocolMode;
    var f, g := FrameOf(task), FrameOf(task.(risk := higher));
    SameRequest(task, higher);
    ElevationMonotone(task, higher);
    ModeMonotone(
      f.risk, g.risk, task.sensitivity, task.repositoryWrite, task.requestedMode, task.requestedProtocol,
      if f.reviewer.Some? then Consensus else Single);
    DefaultMonotone(f.risk, g.risk, task.sensitivity, task.repositoryWrite);
    SpecializedByRequest(f.mode, task.requestedProtocol, f.requestedMode);
    SpecializedByRequest(g.mode, task.requestedProtocol, g.requestedMode);
    BehaviorMonotone(
      f.defaultBehavior, g.defaultBehavior, task.requestedDegradation, f.required != [], f.target != StandardWorkflow);
  }

  /** The stated risk does not enter the required providers. */
  lemma SameRequest(task: Task, higher: TaskRisk)
    ensures RequiredSelection(task.(risk := higher)) == RequiredSelection(task)
    ensures ReviewerKey(task.(risk := higher)) == ReviewerKey(task)
  {
  }

  lemma DefaultMonotone(low: TaskRisk, high: TaskRisk, sensitivity: Sensitivity, write: bool)
    requires RiskRank(low) <= RiskRank(high)
    ensures BehaviorRank(DefaultBehavior(low, sensitivity, write))
        <= BehaviorRank(DefaultBehavior(high, sensitivity, write))
  {
  }

  /** Only a request for it leads to a specialised executor. */
  lemma SpecializedByRequest(mode: Mode, protocol: Option<Protocol>, requestedMode: Mode)
    ensures var requested := if protocol.Some? then protocol.value else DefaultProtocol(requestedMode);
      ExecutionTarget(SelectedProtocol(mode, requested)) != StandardWorkflow <==>
        protocol == Some(BlindReveal) || protocol == Some(AdversarialReview)
  {
  }

  lemma BehaviorMonotone(
    low: Behavior, high: Behavior, requested: Option<Behavior>, hasRequired: bool, specialized: bool)
    requires BehaviorRank(low) <= BehaviorRank(high)
    ensures BehaviorRank(EffectiveBehavior(low, requested, hasRequired, specialized))
        <= BehaviorRank(EffectiveBehavior(high, requested, hasRequired, specialized))
  {
  }

  // ---- mode resolution -----------------------------------------------------------------------

  /** The mode that runs with `capacity` providers, read off the policy table. */
  function RunningMode(f: Frame, capacity: nat): Option<Mode> {
    if capacity >= Floor(f.mode, |f.required|) then Some(f.mode)
    else if capacity == 0 then None
    else
      match f.behavior
      case FallbackToSingle => Some(Single)
      case ReduceProviderCount => Some(if capacity >= 2 then Competitive else Single)
      case _ => None
  }

  /** Mode resolution agrees with the table; what it settles on is always feasible. */
  lemma ResolveLaws(f: Frame, capacity: nat)
    requires BehaviorRank(f.behavior) < BehaviorRank(QueueUntilAvailable) ==> f.required == []
    ensures Resolve(f, capacity).Proceed? <==> RunningMode(f, capacity).Some?
    ensures Resolve(f, capacity).Stop? ==>
        var p := Resolve(f, capacity);
        && p.denial != InfeasibleAfterDegradation
        && p.disposition in {Queue, Deny}
        && (p.disposition == Queue ==>
              f.behavior == QueueUntilAvailable && p.recorded.Some? && p.recorded.value.toMode == None)
    ensures Resolve(f, capacity).Proceed? ==>
        var p := Resolve(f, capacity);
        && RunningMode(f, capacity) == Some(p.mode)
        && Floor(p.mode, |f.required|) <= Goal(p.mode, capacity, |f.required|) <= capacity
        && (p.degradation.Some? <==> p.mode != f.mode)
        && (p.degradation.None? ==> p.protocol == f.protocol && p.target == f.target && p.approval == f.approval)
        && (p.degradation.Some? ==>
              && BehaviorRank(f.behavior) < BehaviorRank(QueueUntilAvailable)
              && ModeRank(p.mode) < ModeRank(f.mode)
              && p.protocol == DefaultProtocol(p.mode) && p.target == StandardWorkflow
              && p.approval == (f.approval || f.behavior == FallbackToSingle)
              && p.degradation.value.fromMode == f.mode && p.degradation.value.toMode == Some(p.mode)
              && p.degradation.value.approvalRequired == p.approval)
  {
  }

  /**
   * A decision runs in a weaker mode than the policy raised it to exactly when a degradation is
   * recorded, and then only for a task that nothing protects; the second shortage denial is dead.
   */
  lemma DegradationTheorem(r: Request)
    requires Valid(r)
    ensures var d, f := Decide(r), FrameOf(r.task);
      && d.denial != Some(InfeasibleAfterDegradation)
      && (d.allowed ==> (d.mode != f.mode <==> d.degradation.Some?))
      && (d.allowed && d.degradation.Some? ==>
            && RiskRank(EffectiveRisk(r.task)) <= RiskRank(Medium)
            && !r.task.repositoryWrite && r.task.sensitivity != Restricted
            && r.task.requiredAgentKeys == [] && r.task.requiredReviewer.None?
            && f.target == StandardWorkflow && d.target == StandardWorkflow
            && ModeRank(d.mode) < ModeRank(f.mode)
            && d.degradation.value.fromMode == f.mode && d.degradation.value.toMode == Some(d.mode)
            && (EffectiveRisk(r.task) == Medium ==>
                  d.mode == Single && d.requireApproval && d.disposition == RequireHumanApproval))
  {
    var f, ranked := FrameOf(r.task), Ranked(r.task, r.providers);
    FrameLaws(r.task);
    ResolveLaws(f, Min(f.budget.maxProviders, |ranked|));
    NothingRequired(r.task);
    ConcludedDegradation(
      r.task, f, ranked, Exclusions(r.task, r.providers));
  }

  lemma NothingRequired(task: Task)
    requires ValidTask(task)
    ensures RequiredSelection(task) == [] ==> task.requiredAgentKeys == [] && task.requiredReviewer.None?
  {
    RequiredLaws(task);
    if task.requiredAgentKeys != [] {
      assert TrimAll(task.requiredAgentKeys)[0] in RequiredSelection(task);
    }
    if task.requiredReviewer.Some? {
      assert ReviewerKey(task).value in RequiredSelection(task);
    }
  }

  lemma ConcludedDegradation(task: Task, f: Frame, ranked: seq<Candidate>, excluded: seq<Exclusion>)
    requires BehaviorRank(f.behavior) < BehaviorRank(QueueUntilAvailable) ==> f.required == []
    ensures var d := Conclude(task, f, ranked, excluded);
      && d.denial != Some(InfeasibleAfterDegradation)
      && (d.allowed ==>
            var p := Resolve(f, Min(f.budget.maxProviders, |ranked|));
            && p.Proceed? && d.mode == p.mode && d.target == p.target
            && d.degradation == p.degradation && d.requireApproval == p.approval
            && d.disposition == (if p.approval then RequireHumanApproval else Execute)
            && (d.degradation.Some? <==> d.mode != f.mode))
  {
    hide Resolve, RunningMode, Missing, Staff, FrameReasons, SummaryOf, Goal, Floor;
    var p := Resolve(f, Min(f.budget.maxProviders, |ranked|));
    ResolveLaws(f, Min(f.budget.maxProviders, |ranked|));
    if p.Proceed? {
      StaffKeepsResolution(task, f, ranked, excluded, p, FrameReasons(task, f) + p.notes);
    }
  }

  /** Staffing a feasible mode never falls back on the second shortage denial, and runs what was resolved. */
  lemma StaffKeepsResolution(
    task: Task, f: Frame, ranked: seq<Candidate>, excluded: seq<Exclusion>, p: Resolution, reasons: seq<Reason>)
    requires p.Proceed?
    requires Floor(p.mode, |f.required|) <= Goal(p.mode, Min(f.budget.maxProviders, |ranked|), |f.required|)
    ensures var d := Staff(
        task, f, ranked, excluded, p.mode, p.protocol, p.target, p.approval, p.degradation, reasons);
      && d.denial != Some(InfeasibleAfterDegradation)
      && d.mode == p.mode && d.target == p.target && d.degradation == p.degradation && d.requireApproval == p.approval
      && (d.allowed ==> d.disposition == if p.approval then RequireHumanApproval else Execute)
  {
    hide Picked, Kept, SummaryOf, EstimatesOf, Roles, Floor, Goal, SaturatedCost;
  }

  // ---- order independence --------------------------------------------------------------------

  lemma TwiceInMultiset<T>(s: seq<T>, i: nat, j: nat)
    requires i < j < |s| && s[i] == s[j]
    ensures multiset(s)[s[i]] >= 2
  {
    MultisetRemove(s, j);
    var rest := s[..j] + s[j + 1..];
    assert rest[i] == s[i];
    assert s[i] in multiset(rest);
  }

  lemma TwiceInSequence<T>(s: seq<T>, x: T)
    requires multiset(s)[x] >= 2
    ensures exists i, j :: 0 <= i < j < |s| && s[i] == s[j] == x
  {
    assert x in s;
    var i :| 0 <= i < |s| && s[i] == x;
    MultisetRemove(s, i);
    var rest := s[..i] + s[i + 1..];
    assert x in multiset(rest);
    assert x in rest;
    var k :| 0 <= k < |rest| && rest[k] == x;
    if k < i {
      assert s[k] == s[i] == x;
    } else {
      assert s[i] == s[k + 1] == x;
    }
  }

  lemma ReorderedDistinct(s: seq<Candidate>, t: seq<Candidate>)
    requires multiset(s) == multiset(t) && DistinctProviderKeys(s)
    ensures DistinctProviderKeys(t)
  {
    forall i, j | 0 <= i < j < |t|
      ensures t[i].Key() != t[j].Key()
    {
      assert t[i] in multiset(t) && t[j] in multiset(t);
      assert t[i] in s && t[j] in s;
      if t[i].Key() == t[j].Key() {
        SameKeySameCandidate(s, t[i], t[j]);
        TwiceInMultiset(t, i, j);
        TwiceInSequence(s, t[i]);
        assert false;
      }
    }
  }

  lemma ReorderedValid(r: Request, providers: seq<Candidate>)
    requires Valid(r) && multiset(providers) == multiset(r.providers)
    ensures Valid(Request(r.task, providers))
  {
    SameSize(providers, r.providers);
    forall c
      ensures c in providers <==> c in r.providers
    {
      assert c in providers <==> c in multiset(providers);
      assert c in r.providers <==> c in multiset(r.providers);
    }
    ReorderedDistinct(r.providers, providers);
    forall k | Offered(r.providers, k)
      ensures Offered(providers, k)
    {
      var c :| c in r.providers && c.Key() == k;
      assert c in providers;
    }
  }

  lemma ReorderedRanking(task: Task, s: seq<Candidate>, t: seq<Candidate>)
    requires multiset(s) == multiset(t) && DistinctProviderKeys(s)
    ensures Ranked(task, s) == Ranked(task, t)
  {
    ReorderedDistinct(s, t);
    RankedLaws(task, s);
    RankedLaws(task, t);
    CollectPermutation(IfEligible(Capabilities(task.requiredCapabilities), task.sensitivity), s, t);
    AscendingUnique(RankKey, Ranked(task, s), Ranked(task, t));
  }

  lemma StaffExclusionOrder(
    task: Task, f: Frame, ranked: seq<Candidate>, a: seq<Exclusion>, b: seq<Exclusion>, p: Resolution,
    reasons: seq<Reason>)
    requires |a| == |b| && p.Proceed?
    ensures Staff(task, f, ranked, b, p.mode, p.protocol, p.target, p.approval, p.degradation, reasons)
        == Staff(task, f, ranked, a, p.mode, p.protocol, p.target, p.approval, p.degradation, reasons).(excluded := b)
    ensures Staff(task, f, ranked, a, p.mode, p.protocol, p.target, p.approval, p.degradation, reasons).excluded == a
  {
    hide Picked, Kept, SummaryOf, EstimatesOf, Roles, SaturatedCost, Settle;
    var floor := Floor(p.mode, |f.required|);
    var goal := Goal(p.mode, Min(f.budget.maxProviders, |ranked|), |f.required|);
    var picked := Picked(f, ranked, goal);
    var kept := Kept(f, picked, floor);
    SettleExclusionOrder(
      task, f, |ranked|, a, b, p, if |kept| < |picked| then reasons + [CostReduced] else reasons, kept, floor);
  }

  lemma SettleExclusionOrder(
    task: Task, f: Frame, eligible: nat, a: seq<Exclusion>, b: seq<Exclusion>, p: Resolution, reasons: seq<Reason>,
    kept: seq<Candidate>, floor: nat)
    requires |a| == |b| && p.Proceed?
    ensures var d := Settle(
        task, f, eligible, a, p.mode, p.protocol, p.target, p.approval, p.degradation, reasons, kept, floor);
      && d.excluded == a
      && Settle(task, f, eligible, b, p.mode, p.protocol, p.target, p.approval, p.degradation, reasons, kept, floor)
          == d.(excluded := b)
  {
    hide SummaryOf, EstimatesOf, Roles, SaturatedCost;
  }

  lemma ExclusionOrderIrrelevant(task: Task, f: Frame, ranked: seq<Candidate>, a: seq<Exclusion>, b: seq<Exclusion>)
    requires |a| == |b|
    ensures Conclude(task, f, ranked, b) == Conclude(task, f, ranked, a).(excluded := b)
    ensures Conclude(task, f, ranked, a).excluded == a
  {
    var p := Resolve(f, Min(f.budget.maxProviders, |ranked|));
    if p.Proceed? {
      StaffExclusionOrder(task, f, ranked, a, b, p, FrameReasons(task, f) + p.notes);
    }
  }

  /** Reordering the candidates changes nothing but the order of the exclusion list. */
  lemma OrderOfCandidatesIrrelevant(r: Request, providers: seq<Candidate>)
    requires Valid(r) && multiset(providers) == multiset(r.providers)
    ensures Valid(Request(r.task, providers))
    ensures var d, e := Decide(r), Decide(Request(r.task, providers));
      multiset(e.excluded) == multiset(d.excluded) && e == d.(excluded := e.excluded)
  {
    ReorderedValid(r, providers);
    ReorderedRanking(r.task, r.providers, providers);
    CollectPermutation(
      IfExcluded(Capabilities(r.task.requiredCapabilities), r.task.sensitivity), r.providers, providers);
    var a, b := Exclusions(r.task, r.providers), Exclusions(r.task, providers);
    SameSize(a, b);
    ExclusionOrderIrrelevant(r.task, FrameOf(r.task), Ranked(r.task, r.providers), a, b);
  }

  // ---- the selection -------------------------------------------------------------------------

  /** What makes a set of candidates the right pick from the ranked eligible ones. */
  ghost predicate RightPick(required: seq<string>, ranked: seq<Candidate>, kept: seq<Candidate>) {
    && (forall c | c in kept :: c in ranked)
    && DistinctProviderKeys(kept)
    && (forall k | k in required :: Offered(kept, k))
    // no better optional candidate was passed over
    && (forall c, better | c in kept && c.Key() !in required && better in ranked && CompareRank(better, c).Less? ::
          better in kept)
  }

  ghost predicate Orderly(required: seq<string>, ranked: seq<Candidate>) {
    && Ascending(Codes, required)
    && Ascending(RankKey, ranked)
    && DistinctProviderKeys(ranked)
    && (forall k | k in required :: Offered(ranked, k))
  }

  lemma DistinctBase(required: seq<string>, ranked: seq<Candidate>, room: nat)
    requires Orderly(required, ranked) && room <= |Optional(ranked, required)|
    ensures DistinctProviderKeys(FindAll(required, ranked) + Optional(ranked, required)[..room])
  {
    hide Candidate.Key, RankKey, FindAll, Optional;
    var found, optional := FindAll(required, ranked), Optional(ranked, required);
    FoundLaws(required, ranked);
    OptionalLaws(ranked, required);
    var base := found + optional[..room];
    forall i, j | 0 <= i < j < |base|
      ensures base[i].Key() != base[j].Key()
    {
      if j < |found| {
        CompareSeqEqual(Codes(required[i]), Codes(required[j]));
      } else if i < |found| {
        assert base[j] in optional && base[i].Key() == required[i];
      } else {
        DistinctOptional(optional, ranked, i - |found|, j - |found|);
      }
    }
  }

  lemma DistinctOptional(optional: seq<Candidate>, ranked: seq<Candidate>, i: nat, j: nat)
    requires Ascending(RankKey, optional) && DistinctProviderKeys(ranked)
    requires i < j < |optional| && optional[i] in ranked && optional[j] in ranked
    ensures optional[i].Key() != optional[j].Key()
  {
    CompareSeqEqual(RankKey(optional[i]), RankKey(optional[j]));
    if optional[i].Key() == optional[j].Key() {
      SameKeySameCandidate(ranked, optional[i], optional[j]);
    }
  }

  lemma BetterComesFirst(optional: seq<Candidate>, room: nat, c: Candidate, better: Candidate)
    requires Ascending(RankKey, optional) && room <= |optional|
    requires better in optional && c in optional[..room] && CompareRank(better, c).Less?
    ensures better in optional[..room]
  {
    var i :| 0 <= i < room && optional[i] == c;
    var j :| 0 <= j < |optional| && optional[j] == better;
    RankKeyCompares(better, c);
    if j >= room {
      CompareSeqReverse(RankKey(c), RankKey(better));
    }
    assert optional[..room][j] == better;
  }

  /** The pick before the reviewer is moved: required candidates, then the best optional ones. */
  lemma BaseIsRight(required: seq<string>, ranked: seq<Candidate>, room: nat)
    requires Orderly(required, ranked) && room <= |Optional(ranked, required)|
    ensures var base := FindAll(required, ranked) + Optional(ranked, required)[..room];
      |base| == |required| + room && RightPick(required, ranked, base)
  {
    hide Candidate.Key, RankKey, FindAll, Optional, CompareRank, DistinctProviderKeys;
    var found, optional := FindAll(required, ranked), Optional(ranked, required);
    var base := found + optional[..room];
    FoundLaws(required, ranked);
    OptionalLaws(ranked, required);
    DistinctBase(required, ranked, room);
    forall k | k in required
      ensures Offered(base, k)
    {
      var i :| 0 <= i < |required| && required[i] == k;
      assert found[i] == base[i];
    }
    forall c, better | c in base && c.Key() !in required && better in ranked && CompareRank(better, c).Less?
      ensures better in base
    {
      if better.Key() in required {
        var i :| 0 <= i < |required| && required[i] == better.Key();
        SameKeySameCandidate(ranked, found[i], better);
        assert base[i] == better;
      } else {
        assert c !in found;
        BetterComesFirst(optional, room, c, better);
      }
    }
  }

  lemma ReviewerMoveKeepsPick(
    required: seq<string>, ranked: seq<Candidate>, base: seq<Candidate>, reviewer: Option<string>)
    requires RightPick(required, ranked, base)
    ensures RightPick(required, ranked, ReviewerLast(base, reviewer))
  {
    var r := ReviewerLast(base, reviewer);
    ReviewerLastLaws(base, reviewer);
    forall k | k in required
      ensures Offered(r, k)
    {
      var c :| c in base && c.Key() == k;
      assert c in r;
    }
  }

  /** Picking reaches the goal exactly, with the right candidates and the reviewer last. */
  lemma PickedIsRight(f: Frame, ranked: seq<Candidate>, goal: nat)
    requires Orderly(f.required, ranked)
    requires |f.required| <= goal <= |ranked|
    requires f.reviewer.Some? ==> f.reviewer.value in f.required
    ensures var picked := Picked(f, ranked, goal);
      && |picked| == goal
      && RightPick(f.required, ranked, picked)
      && (f.reviewer.Some? ==> picked[|picked| - 1].Key() == f.reviewer.value)
      && (f.required == [] ==> picked == ranked[..goal])
  {
    var found, optional := FindAll(f.required, ranked), Optional(ranked, f.required);
    FoundLaws(f.required, ranked);
    EnoughOptional(ranked, f.required);
    OptionalLaws(ranked, f.required);
    var room := goal - |found|;
    BaseIsRight(f.required, ranked, room);
    ReviewerMoveKeepsPick(f.required, ranked, found + optional[..room], f.reviewer);
    ReviewerLastLaws(found + optional[..room], f.reviewer);
  }

  /** A prefix of the ranking is a right pick when nothing is required. */
  lemma PrefixIsRight(ranked: seq<Candidate>, n: nat)
    requires Orderly([], ranked) && n <= |ranked|
    ensures RightPick([], ranked, ranked[..n])
  {
    forall c, better | c in ranked[..n] && better in ranked && CompareRank(better, c).Less?
      ensures better in ranked[..n]
    {
      BetterComesFirst(ranked, n, c, better);
    }
  }

  /** What cost reduction leaves: the largest affordable number of candidates, all of them right. */
  lemma KeptIsRight(f: Frame, ranked: seq<Candidate>, goal: nat, floor: nat)
    requires Orderly(f.required, ranked)
    requires |f.required| <= floor <= goal <= |ranked|
    requires f.reviewer.Some? ==> f.reviewer.value in f.required
    requires f.behavior == ReduceProviderCount ==> f.required == [] && f.reviewer.None?
    requires f.budget.maxCost < U64_MAX
    ensures var kept := Kept(f, Picked(f, ranked, goal), floor);
      && floor <= |kept| <= goal
      && RightPick(f.required, ranked, kept)
      && (f.reviewer.Some? ==> kept[|kept| - 1].Key() == f.reviewer.value)
      && (f.behavior != ReduceProviderCount ==> |kept| == goal)
      && (f.behavior == ReduceProviderCount ==>
            && kept == ranked[..|kept|]
            && (|kept| > floor ==> Cost(kept) <= f.budget.maxCost)
            && forall m | |kept| < m <= goal :: Cost(ranked[..m]) > f.budget.maxCost)
  {
    hide Candidate.Key, Picked, RightPick, SaturatedCost, Cost, Orderly;
    PickedIsRight(f, ranked, goal);
    if f.behavior == ReduceProviderCount {
      ReducedIsRight(f, ranked, goal, floor);
    }
  }

  lemma ReducedIsRight(f: Frame, ranked: seq<Candidate>, goal: nat, floor: nat)
    requires Orderly([], ranked) && floor <= goal <= |ranked|
    requires f.required == [] && f.reviewer.None? && f.behavior == ReduceProviderCount
    requires f.budget.maxCost < U64_MAX
    ensures var kept := Kept(f, ranked[..goal], floor);
      && floor <= |kept| <= goal && kept == ranked[..|kept|]
      && RightPick([], ranked, kept)
      && (|kept| > floor ==> Cost(kept) <= f.budget.maxCost)
      && forall m | |kept| < m <= goal :: Cost(ranked[..m]) > f.budget.maxCost
  {
    hide Candidate.Key, RightPick, SaturatedCost, Cost, Kept, Affordable, Orderly;
    AffordableIsLargest(ranked, goal, floor, f.budget.maxCost);
    KeptIsPrefix(f, ranked, floor, goal);
    var n := Affordable(ranked, goal, floor, f.budget.maxCost);
    PrefixIsRight(ranked, n);
    SaturationIsExact(ranked[..n]);
    forall m | n < m <= goal
      ensures Cost(ranked[..m]) > f.budget.maxCost
    {
      SaturationIsExact(ranked[..m]);
    }
  }

  // ---- the theorems ------------------------------------------------------------------------------

  ghost predicate IsEligible(r: Request, c: Candidate) {
    c in r.providers && Qualified(r.task, c)
  }

  /** The candidates a decision that runs in `mode` keeps. */
  function Chosen(r: Request, mode: Mode): seq<Candidate> {
    var f, ranked := FrameOf(r.task), Ranked(r.task, r.providers);
    var goal := Goal(mode, Min(f.budget.maxProviders, |ranked|), |f.required|);
    Kept(f, Picked(f, ranked, goal), Floor(mode, |f.required|))
  }

  /** The preconditions of the selection lemmas hold of every valid request with nothing missing. */
  lemma SelectionReady(r: Request)
    requires Valid(r)
    ensures var f, ranked := FrameOf(r.task), Ranked(r.task, r.providers);
      && (Missing(f.required, ranked) == [] ==> Orderly(f.required, ranked))
      && (f.reviewer.Some? ==> f.reviewer.value in f.required)
      && (BehaviorRank(f.behavior) < BehaviorRank(QueueUntilAvailable) ==> f.required == [])
      && f.budget.maxCost < U64_MAX
      && (forall c :: c in ranked <==> IsEligible(r, c))
  {
    hide EffectiveRisk, ClampBudget, Candidate.Key;
    FrameLaws(r.task);
    RankedLaws(r.task, r.providers);
    RequiredLaws(r.task);
  }

  lemma AllowedSelects(task: Task, f: Frame, ranked: seq<Candidate>, excluded: seq<Exclusion>)
    requires BehaviorRank(f.behavior) < BehaviorRank(QueueUntilAvailable) ==> f.required == []
    ensures var d := Conclude(task, f, ranked, excluded);
      var capacity := Min(f.budget.maxProviders, |ranked|);
      d.allowed ==>
        var floor, goal := Floor(d.mode, |f.required|), Goal(d.mode, capacity, |f.required|);
        var kept := Kept(f, Picked(f, ranked, goal), floor);
        && Missing(f.required, ranked) == []
        && floor <= goal <= capacity
        && d.selected == Roles(d.mode, kept)
        && d.budget == f.budget && d.requireLease == task.repositoryWrite
        && d.estimates == EstimatesOf(task, d.mode, kept, f.budget)
        && SaturatedCost(kept) <= f.budget.maxCost
        && (task.expectedDurationMs > 0 ==> task.expectedDurationMs <= f.budget.maxWallClockMs)
  {
    hide Resolve, RunningMode, Picked, Kept, SummaryOf, FrameReasons, EstimatesOf, Roles, Floor, Goal, SaturatedCost;
    ResolveLaws(f, Min(f.budget.maxProviders, |ranked|));
  }

  /**
   * At least one, two or three providers, depending on the mode; at most one, three or four of them
   * unless more are required; never more than the budget's; and as many as that allows, except where
   * the next best would break the cost ceiling.
   */
  ghost predicate SoundCount(r: Request, f: Frame, mode: Mode, kept: seq<Candidate>) {
    var ranked := Ranked(r.task, r.providers);
    var most := if mode == Single then 1 else if mode == Consensus then 4 else 3;
    var full := Min(Max(most, |f.required|), Min(f.budget.maxProviders, |ranked|));
    && (if mode == Single then 1 else if mode == Consensus then 3 else 2) <= |kept| <= full
    && (|kept| < full ==>
          f.behavior == ReduceProviderCount && kept <= ranked && Cost(ranked[..|kept| + 1]) > f.budget.maxCost)
  }

  /**
   * The decision `d` names exactly the candidates `kept`: distinct eligible ones, all the required
   * ones among them, in a number its mode and budget permit, at a true cost within the ceiling;
   * no better optional candidate is passed over; and in consensus the last one, and only the last,
   * is the reviewer, who is the named reviewer when there is one.
   */
  ghost predicate SoundSelection(r: Request, f: Frame, d: Decision, kept: seq<Candidate>) {
    && |d.selected| == |kept|
    && (forall i | 0 <= i < |kept| ::
          d.selected[i] == Selected(
            i, kept[i].Key(), kept[i].kind, Trim(kept[i].model),
            if d.mode == Consensus && i == |kept| - 1 then Reviewer else Worker,
            kept[i].cost))
    && (forall c | c in kept :: IsEligible(r, c))
    && DistinctProviderKeys(kept)
    && (forall k | k in f.required :: Offered(kept, k))
    && (forall c, better | c in kept && c.Key() !in f.required && IsEligible(r, better)
          && GoesBefore(better, c) :: better in kept)
    && SoundCount(r, f, d.mode, kept)
    && d.estimates.providerCount == |kept|
    && d.estimates.totalCost == Cost(kept) <= d.budget.maxCost
    && (f.reviewer.Some? ==> d.mode == Consensus && kept[|kept| - 1].Key() == f.reviewer.value)
  }

  lemma SoundFromPick(
    r: Request, f: Frame, ranked: seq<Candidate>, excluded: seq<Exclusion>, d: Decision, kept: seq<Candidate>)
    requires Valid(r) && ranked == Ranked(r.task, r.providers)
    requires forall c :: c in ranked <==> IsEligible(r, c)
    requires Missing(f.required, ranked) == [] ==> Orderly(f.required, ranked)
    requires f.reviewer.Some? ==> f.reviewer.value in f.required && f.mode == Consensus
    requires BehaviorRank(f.behavior) < BehaviorRank(QueueUntilAvailable) ==> f.required == []
    requires f.budget.maxCost < U64_MAX
    requires d == Conclude(r.task, f, ranked, excluded) && d.allowed
    requires kept == Kept(
        f, Picked(f, ranked, Goal(d.mode, Min(f.budget.maxProviders, |ranked|), |f.required|)),
        Floor(d.mode, |f.required|))
    ensures SoundSelection(r, f, d, kept)
  {
    hide Conclude, Kept, Picked, Orderly, Candidate.Key, CompareRank, Missing, IsEligible, Cost, SaturatedCost, Trim,
      Resolve, RunningMode, GoesBefore, RankKey, Sort, SoundCount, Ranked, RightPick, Valid;
    var capacity := Min(f.budget.maxProviders, |ranked|);
    AllowedSelects(r.task, f, ranked, excluded);
    KeptIsRight(f, ranked, Goal(d.mode, capacity, |f.required|), Floor(d.mode, |f.required|));
    SaturationIsExact(kept);
    ConcludedDegradation(r.task, f, ranked, excluded);
    ResolveLaws(f, capacity);
    BestFromPick(r, f.required, ranked, kept);
    CountFromPick(r, f, d.mode, kept);
  }

  /** A right pick from the eligible candidates passes over nobody who goes before. */
  lemma BestFromPick(r: Request, required: seq<string>, ranked: seq<Candidate>, kept: seq<Candidate>)
    requires Valid(r) && RightPick(required, ranked, kept)
    requires forall c :: c in ranked <==> IsEligible(r, c)
    ensures DistinctProviderKeys(kept) && forall c | c in kept :: IsEligible(r, c)
    ensures forall k | k in required :: Offered(kept, k)
    ensures forall c, better | c in kept && c.Key() !in required && IsEligible(r, better) && GoesBefore(better, c) ::
        better in kept
  {
    hide Candidate.Key, CompareRank, IsEligible, GoesBefore, Valid;
    forall c, better | c in kept && c.Key() !in required && IsEligible(r, better) && GoesBefore(better, c)
      ensures better in kept
    {
      RankMeansEligible(r, better, c);
    }
  }

  /** The number kept is within the mode's numbers, and as large as budget and cost allow. */
  lemma CountFromPick(r: Request, f: Frame, mode: Mode, kept: seq<Candidate>)
    requires var ranked := Ranked(r.task, r.providers);
      var capacity := Min(f.budget.maxProviders, |ranked|);
      var floor, goal := Floor(mode, |f.required|), Goal(mode, capacity, |f.required|);
      && floor <= goal <= capacity
      && floor <= |kept| <= goal
      && (f.behavior != ReduceProviderCount ==> |kept| == goal)
      && (f.behavior == ReduceProviderCount ==>
            kept == ranked[..|kept|] && forall m | |kept| < m <= goal :: Cost(ranked[..m]) > f.budget.maxCost)
    ensures SoundCount(r, f, mode, kept)
  {
    hide Ranked, Cost;
  }

  lemma RankMeansEligible(r: Request, a: Candidate, b: Candidate)
    requires Valid(r) && IsEligible(r, a) && IsEligible(r, b)
    ensures CompareRank(a, b).Less? <==> GoesBefore(a, b)
  {
    RankMeans(a, b);
  }

  /** Every allowed decision is a sound selection. */
  lemma SelectionTheorem(r: Request)
    requires Valid(r)
    ensures Decide(r).allowed ==> SoundSelection(r, FrameOf(r.task), Decide(r), Chosen(r, Decide(r).mode))
  {
    hide Conclude, FrameOf, Ranked, Kept, Picked, SoundSelection, Orderly, IsEligible, Missing;
    SelectionReady(r);
    FrameLaws(r.task);
    if Decide(r).allowed {
      SoundFromPick(
        r, FrameOf(r.task), Ranked(r.task, r.providers), Exclusions(r.task, r.providers), Decide(r),
        Chosen(r, Decide(r).mode));
    }
  }

  /**
   * The exclusion list names exactly the candidates that are not qualified, each with the reason it
   * deserves; nobody is dropped without an entry.
   */
  lemma ExclusionTheorem(r: Request)
    requires Valid(r)
    ensures forall e :: e in Decide(r).excluded <==>
        exists c | c in r.providers :: e.agentKey == c.Key() && Deserves(r.task, c, e.reason)
    ensures |Decide(r).excluded| + |Ranked(r.task, r.providers)| == |r.providers|
  {
    hide Conclude, FrameOf, Ranked, Exclusions, Deserves, Candidate.Key, Valid;
    var excluded := Exclusions(r.task, r.providers);
    ExclusionOrderIrrelevant(r.task, FrameOf(r.task), Ranked(r.task, r.providers), excluded, excluded);
    forall e
      ensures e in excluded <==> exists c | c in r.providers :: e.agentKey == c.Key() && Deserves(r.task, c, e.reason)
    {
      ExcludedMember(r.task, r.providers, e);
    }
    RankedCount(r.task, r.providers);
  }

  lemma RankedCount(task: Task, s: seq<Candidate>)
    ensures |Exclusions(task, s)| + |Ranked(task, s)| == |s|
  {
    hide Eligible, Exclusions, RankKey;
    EveryoneCounted(task, s);
  }

  lemma {:induction false} CostMonotone(s: seq<Candidate>, m: nat, n: nat)
    requires m <= n <= |s|
    ensures Cost(s[..m]) <= Cost(s[..n])
  {
    if m < n {
      CostMonotone(s, m, n - 1);
      assert s[..n][..n - 1] == s[..n - 1];
    }
  }

  /** The smallest set the policy may fall back to for cost: a shorter prefix only when counts may shrink. */
  function CheapestPermitted(f: Frame, ranked: seq<Candidate>, mode: Mode): seq<Candidate> {
    if f.behavior == ReduceProviderCount && MinimumCount(mode) <= |ranked| then ranked[..MinimumCount(mode)]
    else Picked(f, ranked, Goal(mode, Min(f.budget.maxProviders, |ranked|), |f.required|))
  }

  /** Everything a request must satisfy to be allowed to run. */
  ghost predicate Permitted(task: Task, f: Frame, ranked: seq<Candidate>) {
    var running := RunningMode(f, Min(f.budget.maxProviders, |ranked|));
    && (forall k | k in f.required :: Offered(ranked, k))
    && running.Some?
    && Cost(CheapestPermitted(f, ranked, running.value)) <= f.budget.maxCost
    && task.expectedDurationMs <= f.budget.maxWallClockMs
  }

  /** Cost reduction fails exactly when even the smallest permitted set is too expensive. */
  lemma CostCheck(f: Frame, ranked: seq<Candidate>, mode: Mode)
    requires Orderly(f.required, ranked)
    requires f.reviewer.Some? ==> f.reviewer.value in f.required
    requires f.behavior == ReduceProviderCount ==> f.required == []
    requires f.budget.maxCost < U64_MAX
    requires Floor(mode, |f.required|) <= Goal(mode, Min(f.budget.maxProviders, |ranked|), |f.required|)
    ensures var capacity := Min(f.budget.maxProviders, |ranked|);
      var floor, goal := Floor(mode, |f.required|), Goal(mode, capacity, |f.required|);
      var kept := Kept(f, Picked(f, ranked, goal), floor);
      (|kept| < floor || SaturatedCost(kept) > f.budget.maxCost)
        <==> Cost(CheapestPermitted(f, ranked, mode)) > f.budget.maxCost
  {
    hide Picked, Orderly, RightPick, SaturatedCost, Cost, Candidate.Key;
    var floor, goal := Floor(mode, |f.required|), Goal(mode, Min(f.budget.maxProviders, |ranked|), |f.required|);
    var kept := Kept(f, Picked(f, ranked, goal), floor);
    KeptIsRight(f, ranked, goal, floor);
    SaturationIsExact(kept);
    if f.behavior == ReduceProviderCount {
      CostMonotone(ranked, floor, |kept|);
    }
  }

  lemma AllowedExactly(task: Task, f: Frame, ranked: seq<Candidate>, excluded: seq<Exclusion>)
    requires Missing(f.required, ranked) == [] ==> Orderly(f.required, ranked)
    requires f.reviewer.Some? ==> f.reviewer.value in f.required
    requires BehaviorRank(f.behavior) < BehaviorRank(QueueUntilAvailable) ==> f.required == []
    requires f.budget.maxCost < U64_MAX
    ensures Conclude(task, f, ranked, excluded).allowed <==> Permitted(task, f, ranked)
  {
    hide Resolve, RunningMode, Picked, Kept, SummaryOf, FrameReasons, EstimatesOf, Roles, Floor, Goal, SaturatedCost,
      CheapestPermitted, Cost, Orderly;
    var capacity := Min(f.budget.maxProviders, |ranked|);
    ResolveLaws(f, capacity);
    if Missing(f.required, ranked) == [] && RunningMode(f, capacity).Some? {
      CostCheck(f, ranked, RunningMode(f, capacity).value);
    }
  }

  /** A refusal selects nobody and gives a reason; it queues only under a policy that queues. */
  lemma RefusalShape(task: Task, f: Frame, ranked: seq<Candidate>, excluded: seq<Exclusion>)
    requires BehaviorRank(f.behavior) < BehaviorRank(QueueUntilAvailable) ==> f.required == []
    ensures var d := Conclude(task, f, ranked, excluded);
      !d.allowed ==>
        && d.selected == [] && d.denial.Some? && d.disposition in {Queue, Deny}
        && (d.disposition == Queue ==> f.behavior == QueueUntilAvailable)
        && (d.disposition == Queue ==> d.degradation.Some? && d.degradation.value.toMode == None)
  {
    hide Resolve, RunningMode, Missing, Picked, Kept, SummaryOf, FrameReasons, EstimatesOf, Roles, SaturatedCost, Floor,
      Goal;
    ResolveLaws(f, Min(f.budget.maxProviders, |ranked|));
  }

  /** A valid request is allowed if and only if it is permitted; nothing else is ever refused or let through. */
  lemma AllowedIffPermitted(r: Request)
    requires Valid(r)
    ensures Decide(r).allowed <==> Permitted(r.task, FrameOf(r.task), Ranked(r.task, r.providers))
    ensures !Decide(r).allowed ==>
        && Decide(r).selected == [] && Decide(r).denial.Some? && Decide(r).disposition in {Queue, Deny}
        && (Decide(r).disposition == Queue ==> FrameOf(r.task).behavior == QueueUntilAvailable)
  {
    hide Conclude, FrameOf, Ranked, Permitted, Missing, Orderly, IsEligible, Valid;
    SelectionReady(r);
    AllowedExactly(r.task, FrameOf(r.task), Ranked(r.task, r.providers), Exclusions(r.task, r.providers));
    RefusalShape(r.task, FrameOf(r.task), Ranked(r.task, r.providers), Exclusions(r.task, r.providers));
  }

  // ---- the estimates ---------------------------------------------------------------------------

  function Latency(s: seq<Candidate>): nat {
    if s == [] then 0 else Latency(s[..|s| - 1]) + s[|s| - 1].latencyMs
  }

  lemma {:induction false} LatencyIsExact(s: seq<Candidate>)
    ensures SaturatedLatency(s) == Min(Latency(s), U64_MAX)
  {
    if s != [] {
      LatencyIsExact(s[..|s| - 1]);
    }
  }

  lemma {:induction false} WorstIsMaximum(s: seq<Candidate>)
    ensures forall c | c in s :: c.latencyMs <= WorstLatency(s)
    ensures s != [] ==> exists c :: c in s && c.latencyMs == WorstLatency(s)
  {
    if s != [] {
      WorstIsMaximum(s[..|s| - 1]);
      assert s == s[..|s| - 1] + [s[|s| - 1]];
      assert s[|s| - 1] in s;
    }
  }

  lemma {:induction false} SmallestIsMinimum(s: seq<Candidate>)
    ensures forall c | c in s && c.contextTokens > 0 :: 0 < SmallestContext(s) <= c.contextTokens
    ensures SmallestContext(s) > 0 ==> exists c :: c in s && c.contextTokens == SmallestContext(s)
  {
    if s != [] {
      SmallestIsMinimum(s[..|s| - 1]);
      assert s == s[..|s| - 1] + [s[|s| - 1]];
      assert s[|s| - 1] in s;
    }
  }

  /**
   * The estimates name one call per provider and round, the wall clock as stated by the task, as the
   * sum of latencies one after another or as the slowest side by side, and the smallest context
   * window anyone advertises.
   */
  ghost predicate SoundEstimates(task: Task, d: Decision, kept: seq<Candidate>) {
    && d.estimates.providerCalls == |kept| * d.budget.maxRounds
    && (task.expectedDurationMs > 0 ==> d.estimates.wallClockMs == task.expectedDurationMs <= d.budget.maxWallClockMs)
    && (task.expectedDurationMs == 0 && d.mode == Sequential ==>
          d.estimates.wallClockMs == Min(Latency(kept), U64_MAX))
    && (task.expectedDurationMs == 0 && d.mode != Sequential ==>
          && (forall c | c in kept :: c.latencyMs <= d.estimates.wallClockMs)
          && (exists c :: c in kept && c.latencyMs == d.estimates.wallClockMs))
    && (forall c | c in kept && c.contextTokens > 0 :: 0 < d.estimates.minimumContextTokens <= c.contextTokens)
    && (d.estimates.minimumContextTokens > 0 ==>
          exists c :: c in kept && c.contextTokens == d.estimates.minimumContextTokens)
  }

  /** Every allowed decision carries sound estimates of what it selected. */
  lemma EstimatesTheorem(r: Request)
    requires Valid(r)
    ensures Decide(r).allowed ==> SoundEstimates(r.task, Decide(r), Chosen(r, Decide(r).mode))
  {
    hide Conclude, FrameOf, Ranked, Kept, Picked, Orderly, IsEligible, Missing, Latency, SaturatedLatency,
      WorstLatency, SmallestContext, SaturatedCost, Cost, Candidate.Key, CompareRank, Trim;
    if Decide(r).allowed {
      var kept := Chosen(r, Decide(r).mode);
      SelectionReady(r);
      AllowedSelects(r.task, FrameOf(r.task), Ranked(r.task, r.providers), Exclusions(r.task, r.providers));
      SelectionTheorem(r);
      LatencyIsExact(kept);
      WorstIsMaximum(kept);
      SmallestIsMinimum(kept);
      CallsDoNotSaturate(kept, Decide(r).budget);
    }
  }

  lemma CallsDoNotSaturate(s: seq<Candidate>, b: Budget)
    requires |s| <= b.maxProviders
    ensures |s| * b.maxRounds <= U64_MAX
  {
    SmallProduct(|s|, b.maxRounds);
  }

  lemma {:induction false} SmallProduct(a: nat, b: nat)
    requires b <= 255
    ensures a * b <= a * 255
  {
    if a > 0 {
      SmallProduct(a - 1, b);
    }
  }
}
