/** What a decision answers: its summary, terms, refusals and reasons, and which requests it accepts. */
module PolicyAnswers {
  import opened Prelude
  import opened WorkflowModes
  import opened Text
  import opened Sequences
  import opened PolicyTypes
  import opened PolicyRules
  import opened PolicyDecision
  import opened PolicySelection
  import opened PolicyTheorems

  // ---- the answer ----------------------------------------------------------------------------

  /** What staffing a feasible resolution answers. */
  lemma StaffMeans(
    task: Task, f: Frame, ranked: seq<Candidate>, excluded: seq<Exclusion>, p: Resolution, reasons: seq<Reason>)
    requires p.Proceed?
    requires Floor(p.mode, |f.required|) <= Goal(p.mode, Min(f.budget.maxProviders, |ranked|), |f.required|)
    ensures var d := Staff(
        task, f, ranked, excluded, p.mode, p.protocol, p.target, p.approval, p.degradation, reasons);
      var floor := Floor(p.mode, |f.required|);
      var picked := Picked(f, ranked, Goal(p.mode, Min(f.budget.maxProviders, |ranked|), |f.required|));
      var kept := Kept(f, picked, floor);
      var tooDear := |kept| < floor || SaturatedCost(kept) > f.budget.maxCost;
      && d.excluded == excluded && d.mode == p.mode && d.protocol == p.protocol
      && d.summary == SummaryOf(f, p.protocol, p.mode, |ranked|, |excluded|, [])
      && (d.allowed <==> !tooDear && task.expectedDurationMs <= f.budget.maxWallClockMs)
      && (d.allowed ==> |d.selected| == |kept|)
      && (!d.allowed ==>
            && d.disposition == Deny
            && d.denial == Some(
                if tooDear then CostCeiling else DurationCeiling(task.expectedDurationMs, f.budget.maxWallClockMs)))
      && d.reasons == reasons + (if |kept| < |picked| then [CostReduced] else [])
          + (if d.allowed then [ProtocolExplained(p.protocol), RankedDeterministically, SelectedCount(|kept|)] else [])
  {
    hide Picked, Kept, SummaryOf, EstimatesOf, SaturatedCost, Floor, Goal;
  }

  /** The summary repeats the frame, counts everybody and names the required keys nobody can serve. */
  lemma SummaryMeans(r: Request)
    requires Valid(r)
    ensures var d, f, ranked := Decide(r), FrameOf(r.task), Ranked(r.task, r.providers);
      && d.summary.requestedMode == f.requestedMode && d.summary.requiredMode == f.requiredMode
      && d.summary.requestedProtocol == f.requestedProtocol && d.summary.selectedProtocol == d.protocol
      && d.summary.eligibleCount == |ranked| && d.summary.excludedCount == |d.excluded|
      && d.summary.requiredKeys == f.required && d.summary.reviewer == f.reviewer
      && (forall k :: k in d.summary.missingKeys <==> k in f.required && !Offered(ranked, k))
      && (d.allowed ==> d.summary.minimumCount <= |d.selected| <= d.summary.desiredCount <= |ranked|)
  {
    hide FrameOf, Ranked, Exclusions, Valid, Offered, Orderly, IsEligible;
    SelectionReady(r);
    ConcludedSummary(r.task, FrameOf(r.task), Ranked(r.task, r.providers), Exclusions(r.task, r.providers));
    MissingMeans(FrameOf(r.task).required, Ranked(r.task, r.providers));
  }

  lemma {:induction false} MissingMeans(required: seq<string>, ranked: seq<Candidate>)
    ensures forall k :: k in Missing(required, ranked) <==> k in required && !Offered(ranked, k)
  {
    hide Offered;
    if required != [] {
      assert required == [required[0]] + required[1..];
      MissingMeans(required[1..], ranked);
    }
  }

  lemma ConcludedSummary(task: Task, f: Frame, ranked: seq<Candidate>, excluded: seq<Exclusion>)
    requires BehaviorRank(f.behavior) < BehaviorRank(QueueUntilAvailable) ==> f.required == []
    requires f.reviewer.Some? ==> f.reviewer.value in f.required
    requires Missing(f.required, ranked) == [] ==> Orderly(f.required, ranked)
    requires f.budget.maxCost < U64_MAX
    ensures var d := Conclude(task, f, ranked, excluded);
      && d.excluded == excluded
      && d.summary.requestedMode == f.requestedMode && d.summary.requiredMode == f.requiredMode
      && d.summary.requestedProtocol == f.requestedProtocol && d.summary.selectedProtocol == d.protocol
      && d.summary.eligibleCount == |ranked| && d.summary.excludedCount == |excluded|
      && d.summary.requiredKeys == f.required && d.summary.reviewer == f.reviewer
      && d.summary.missingKeys == Missing(f.required, ranked)
      && (d.allowed ==> d.summary.minimumCount <= |d.selected| <= d.summary.desiredCount <= |ranked|)
  {
    hide Resolve, RunningMode, Missing, Picked, Kept, FrameReasons, SaturatedCost, Floor, Goal, Orderly, RightPick,
      Staff, Cost;
    var capacity := Min(f.budget.maxProviders, |ranked|);
    var p := Resolve(f, capacity);
    ResolveLaws(f, capacity);
    if Missing(f.required, ranked) == [] && p.Proceed? {
      StaffMeans(task, f, ranked, excluded, p, FrameReasons(task, f) + p.notes);
      assert |f.required| <= Floor(p.mode, |f.required|) by { FloorCovers(p.mode, |f.required|); }
      KeptIsRight(f, ranked, Goal(p.mode, capacity, |f.required|), Floor(p.mode, |f.required|));
    }
  }

  lemma FloorCovers(mode: Mode, required: nat)
    ensures required <= Floor(mode, required)
  {
  }

  /** The obstacle a refusal names, the first that is met, and whether it queues the work or denies it. */
  ghost predicate NamesObstacle(task: Task, f: Frame, ranked: seq<Candidate>, d: Decision) {
    var capacity := Min(f.budget.maxProviders, |ranked|);
    if d.summary.missingKeys != [] then
      && d.denial == Some(Blocked(RequiredProvidersMissing(d.summary.missingKeys)))
      && d.disposition == (if f.behavior == FailClosed then Deny else Queue) && d.mode == f.mode
    else if RunningMode(f, capacity).None? then
      && d.mode == f.mode
      && (f.behavior == QueueUntilAvailable <==> d.disposition == Queue)
      && (f.behavior == FallbackToSingle ==> d.denial == Some(NoFallbackProvider) && capacity == 0)
      && (f.behavior == ReduceProviderCount ==> d.denial == Some(NoEligibleProvider) && capacity == 0)
      && (f.behavior == FailClosed || f.behavior == QueueUntilAvailable ==>
            exists least, most :: d.denial == Some(Blocked(ProviderShortage(f.mode, least, most))) && most < least)
    else
      && d.disposition == Deny && Some(d.mode) == RunningMode(f, capacity)
      && d.denial == Some(
          if Cost(CheapestPermitted(f, ranked, d.mode)) > f.budget.maxCost then CostCeiling
          else DurationCeiling(task.expectedDurationMs, f.budget.maxWallClockMs))
  }

  /** Every refusal names the first obstacle that is met. */
  lemma RefusalMeans(r: Request)
    requires Valid(r)
    ensures !Decide(r).allowed ==>
        NamesObstacle(r.task, FrameOf(r.task), Ranked(r.task, r.providers), Decide(r))
  {
    hide FrameOf, Ranked, Exclusions, Valid, Offered, Orderly, IsEligible, Conclude, NamesObstacle;
    SelectionReady(r);
    var f, ranked, excluded := FrameOf(r.task), Ranked(r.task, r.providers), Exclusions(r.task, r.providers);
    var p := Resolve(f, Min(f.budget.maxProviders, |ranked|));
    hide Resolve;
    if Missing(f.required, ranked) != [] || p.Stop? {
      StoppedRefusal(r.task, f, ranked, excluded);
    } else {
      StaffedRefusal(r.task, f, ranked, excluded);
    }
  }

  lemma StoppedRefusal(task: Task, f: Frame, ranked: seq<Candidate>, excluded: seq<Exclusion>)
    requires BehaviorRank(f.behavior) < BehaviorRank(QueueUntilAvailable) ==> f.required == []
    requires Missing(f.required, ranked) != [] || Resolve(f, Min(f.budget.maxProviders, |ranked|)).Stop?
    ensures NamesObstacle(task, f, ranked, Conclude(task, f, ranked, excluded))
  {
    hide RunningMode, Missing, FrameReasons, Floor, Goal, Cost, CheapestPermitted, Resolve, Staff;
    ResolveLaws(f, Min(f.budget.maxProviders, |ranked|));
    StopMeans(f, Min(f.budget.maxProviders, |ranked|));
  }

  lemma StaffedRefusal(task: Task, f: Frame, ranked: seq<Candidate>, excluded: seq<Exclusion>)
    requires BehaviorRank(f.behavior) < BehaviorRank(QueueUntilAvailable) ==> f.required == []
    requires f.reviewer.Some? ==> f.reviewer.value in f.required
    requires Orderly(f.required, ranked) && f.budget.maxCost < U64_MAX
    requires Missing(f.required, ranked) == [] && Resolve(f, Min(f.budget.maxProviders, |ranked|)).Proceed?
    ensures var d := Conclude(task, f, ranked, excluded);
      !d.allowed ==> NamesObstacle(task, f, ranked, d)
  {
    hide RunningMode, Missing, Picked, Kept, FrameReasons, SaturatedCost, Floor, Goal, Orderly, Cost, CheapestPermitted,
      Resolve, Staff, Conclude;
    var p := Resolve(f, Min(f.budget.maxProviders, |ranked|));
    ResolveLaws(f, Min(f.budget.maxProviders, |ranked|));
    ConcludeStaffs(task, f, ranked, excluded, p);
    StaffMeans(task, f, ranked, excluded, p, FrameReasons(task, f) + p.notes);
    NothingMissing(f, p, |ranked|, |excluded|);
    CostCheck(f, ranked, p.mode);
  }

  lemma NothingMissing(f: Frame, p: Resolution, eligible: nat, excluded: nat)
    requires p.Proceed?
    ensures SummaryOf(f, p.protocol, p.mode, eligible, excluded, []).missingKeys == []
  {
  }

  /** What mode resolution says when it gives up. */
  lemma StopMeans(f: Frame, capacity: nat)
    requires BehaviorRank(f.behavior) < BehaviorRank(QueueUntilAvailable) ==> f.required == []
    ensures Resolve(f, capacity).Stop? ==>
        var p := Resolve(f, capacity);
        && (f.behavior == QueueUntilAvailable <==> p.disposition == Queue)
        && (f.behavior == FallbackToSingle ==> p.denial == NoFallbackProvider && capacity == 0)
        && (f.behavior == ReduceProviderCount ==> p.denial == NoEligibleProvider && capacity == 0)
        && (f.behavior == FailClosed || f.behavior == QueueUntilAvailable ==>
              exists least, most :: p.denial == Blocked(ProviderShortage(f.mode, least, most)) && most < least)
  {
  }

  /** The explanations that depend on the frame alone, each given exactly when it is true. */
  lemma FrameReasonsMean(task: Task, f: Frame)
    ensures var reasons := FrameReasons(task, f);
      && (RiskElevated in reasons <==> RiskRank(f.risk) > RiskRank(task.risk))
      && (forall e: Reason | e.BudgetElevated? :: e in reasons <==>
            RiskRank(f.budgetRisk) > RiskRank(f.risk) && e == BudgetElevated(f.risk, f.budgetRisk, f.requiredMode))
      && (forall e: Reason | e.ModeRaised? :: e in reasons <==>
            f.mode != f.requestedMode && e == ModeRaised(f.requestedMode, f.mode))
      && (forall e: Reason | e.ProtocolRaised? :: e in reasons <==>
            f.protocol != f.requestedProtocol && e == ProtocolRaised(f.requestedProtocol, f.protocol, f.mode))
      && (forall e: Reason | e.DegradationTightened? :: e in reasons <==>
            f.behavior != f.defaultBehavior && e == DegradationTightened(f.defaultBehavior, f.behavior))
      && (forall e: Reason | AboutAnswer(e) :: e !in reasons)
  {
    var reasons := FrameReasons(task, f);
    forall e: Reason
      ensures e in reasons <==> SaidOfFrame(task, f, e)
    {
      FrameReasonIs(task, f, e);
    }
    hide FrameReasons, RiskRank;
  }

  /** The explanation is true of the frame. */
  predicate SaidOfFrame(task: Task, f: Frame, e: Reason) {
    match e
    case RiskElevated => RiskRank(f.risk) > RiskRank(task.risk)
    case BudgetElevated(_, _, _) =>
      RiskRank(f.budgetRisk) > RiskRank(f.risk) && e == BudgetElevated(f.risk, f.budgetRisk, f.requiredMode)
    case ModeRaised(_, _) => f.mode != f.requestedMode && e == ModeRaised(f.requestedMode, f.mode)
    case ProtocolRaised(_, _, _) =>
      f.protocol != f.requestedProtocol && e == ProtocolRaised(f.requestedProtocol, f.protocol, f.mode)
    case DegradationTightened(_, _) =>
      f.behavior != f.defaultBehavior && e == DegradationTightened(f.defaultBehavior, f.behavior)
    case _ => false
  }

  lemma FrameReasonIs(task: Task, f: Frame, e: Reason)
    ensures e in FrameReasons(task, f) <==> SaidOfFrame(task, f, e)
  {
    hide RiskRank;
  }

  /** An explanation that depends on the candidates. */
  predicate AboutAnswer(e: Reason) {
    || e.Shortage? || e.FellBackToSingle? || e.ReducedMode? || e.CostReduced? || e.ProtocolExplained?
    || e.RankedDeterministically? || e.SelectedCount?
  }

  /** Beyond the frame's own explanations, a decision gives those of its answer, and of these the true ones. */
  lemma ReasonsMean(r: Request)
    requires Valid(r)
    ensures var d, f := Decide(r), FrameOf(r.task);
      && (forall e: Reason | !AboutAnswer(e) :: e in d.reasons <==> e in FrameReasons(r.task, f))
      && (forall e: Reason | e.SelectedCount? :: e in d.reasons <==> d.allowed && e == SelectedCount(|d.selected|))
      && (forall e: Reason | e.Shortage? :: e in d.reasons <==>
            d.summary.missingKeys != [] && e == Shortage(RequiredProvidersMissing(d.summary.missingKeys)))
  {
    hide FrameOf, Ranked, Exclusions, Valid, Missing, Conclude, FrameReasons, Orderly, IsEligible;
    SelectionReady(r);
    var f, ranked, excluded := FrameOf(r.task), Ranked(r.task, r.providers), Exclusions(r.task, r.providers);
    FrameReasonsMean(r.task, f);
    ConcludedReasons(r.task, f, ranked, excluded);
    var d, own := Conclude(r.task, f, ranked, excluded), FrameReasons(r.task, f);
    assert d.reasons == own + d.reasons[|own|..];
  }

  lemma ConcludedReasons(task: Task, f: Frame, ranked: seq<Candidate>, excluded: seq<Exclusion>)
    requires BehaviorRank(f.behavior) < BehaviorRank(QueueUntilAvailable) ==> f.required == []
    ensures var d, own := Conclude(task, f, ranked, excluded), FrameReasons(task, f);
      && own <= d.reasons
      && (forall e: Reason | e in d.reasons[|own|..] :: AboutAnswer(e))
      && (forall e: Reason | e.SelectedCount? :: e in d.reasons[|own|..] <==>
            d.allowed && e == SelectedCount(|d.selected|))
      && (forall e: Reason | e.Shortage? :: e in d.reasons[|own|..] <==>
            d.summary.missingKeys != [] && e == Shortage(RequiredProvidersMissing(d.summary.missingKeys)))
  {
    hide Missing, Resolve, Staff, FrameReasons, Floor, Goal, RunningMode, Picked, Kept, SaturatedCost;
    var capacity := Min(f.budget.maxProviders, |ranked|);
    var p, own, d := Resolve(f, capacity), FrameReasons(task, f), Conclude(task, f, ranked, excluded);
    ResolveLaws(f, capacity);
    NotesAboutAnswer(f, capacity);
    if Missing(f.required, ranked) == [] && p.Proceed? {
      StaffMeans(task, f, ranked, excluded, p, own + p.notes);
      NothingMissing(f, p, |ranked|, |excluded|);
      StaffReasons(own, p.notes, d);
    } else {
      assert d.reasons[|own|..] == if Missing(f.required, ranked) != [] then
          [Shortage(RequiredProvidersMissing(Missing(f.required, ranked)))] else [];
    }
  }

  lemma StaffReasons(own: seq<Reason>, notes: seq<Reason>, d: Decision)
    requires forall e | e in notes :: e.FellBackToSingle? || e.ReducedMode?
    requires d.reasons == own + notes + [CostReduced] + Closing(d) || d.reasons == own + notes + [] + Closing(d)
    ensures own <= d.reasons
    ensures forall e: Reason | e in d.reasons[|own|..] :: AboutAnswer(e) && !e.Shortage?
    ensures forall e: Reason | e.SelectedCount? :: e in d.reasons[|own|..] <==>
        d.allowed && e == SelectedCount(|d.selected|)
  {
    var cost := if d.reasons == own + notes + [CostReduced] + Closing(d) then [CostReduced] else [];
    assert d.reasons == own + (notes + cost + Closing(d));
    assert d.reasons[|own|..] == notes + cost + Closing(d);
  }

  /** The explanations an allowed decision ends with. */
  function Closing(d: Decision): seq<Reason> {
    if d.allowed then [ProtocolExplained(d.protocol), RankedDeterministically, SelectedCount(|d.selected|)] else []
  }

  lemma NotesAboutAnswer(f: Frame, capacity: nat)
    ensures Resolve(f, capacity).Proceed? ==>
        forall e | e in Resolve(f, capacity).notes :: e.FellBackToSingle? || e.ReducedMode?
  {
  }

  /** Every answer keeps the frame's terms, and asks for approval also where it falls back to one agent. */
  lemma TermsMean(r: Request)
    requires Valid(r)
    ensures var d, f := Decide(r), FrameOf(r.task);
      var running := RunningMode(f, Min(f.budget.maxProviders, |Ranked(r.task, r.providers)|));
      && d.budget == f.budget && d.behavior == f.behavior && (d.requireLease <==> r.task.repositoryWrite)
      && (d.requireApproval <==> f.approval || (f.behavior == FallbackToSingle && running != Some(f.mode)))
      && (d.disposition == Execute <==> d.allowed && !d.requireApproval)
      && (d.disposition == RequireHumanApproval <==> d.allowed && d.requireApproval)
      && (d.mode == f.mode && running == Some(f.mode) ==> d.protocol == f.protocol && d.target == f.target)
      && (d.summary.missingKeys != [] ==>
            d.degradation == Some(Degradation(
              f.behavior, RequiredProvidersMissing(d.summary.missingKeys), f.mode, None, f.protocol, None, f.approval)))
  {
    hide FrameOf, Ranked, Exclusions, Valid, Offered, Orderly, IsEligible;
    SelectionReady(r);
    MissingNeedsRequired(FrameOf(r.task), Ranked(r.task, r.providers));
    ConcludedTerms(r.task, FrameOf(r.task), Ranked(r.task, r.providers), Exclusions(r.task, r.providers));
  }

  lemma MissingNeedsRequired(f: Frame, ranked: seq<Candidate>)
    ensures Missing(f.required, ranked) != [] ==> f.required != []
  {
  }

  lemma ConcludedTerms(task: Task, f: Frame, ranked: seq<Candidate>, excluded: seq<Exclusion>)
    requires BehaviorRank(f.behavior) < BehaviorRank(QueueUntilAvailable) ==> f.required == []
    requires Missing(f.required, ranked) != [] ==> f.required != []
    ensures var d, running := Conclude(task, f, ranked, excluded), RunningMode(f, Min(f.budget.maxProviders, |ranked|));
      && d.budget == f.budget && d.behavior == f.behavior && (d.requireLease <==> task.repositoryWrite)
      && (d.requireApproval <==> f.approval || (f.behavior == FallbackToSingle && running != Some(f.mode)))
      && (d.disposition == Execute <==> d.allowed && !d.requireApproval)
      && (d.disposition == RequireHumanApproval <==> d.allowed && d.requireApproval)
      && (d.mode == f.mode && running == Some(f.mode) ==> d.protocol == f.protocol && d.target == f.target)
      && (d.summary.missingKeys != [] ==>
            d.degradation == Some(Degradation(
              f.behavior, RequiredProvidersMissing(d.summary.missingKeys), f.mode, None, f.protocol, None, f.approval)))
  {
    hide Missing, FrameReasons, Staff, Floor, Goal, Resolve;
    var capacity := Min(f.budget.maxProviders, |ranked|);
    var p := Resolve(f, capacity);
    ResolveLaws(f, capacity);
    ApprovalOfResolution(f, capacity);
    if Missing(f.required, ranked) == [] && p.Proceed? {
      hide RunningMode, Conclude;
      ConcludeStaffs(task, f, ranked, excluded, p);
      StaffTerms(task, f, ranked, excluded, p, FrameReasons(task, f) + p.notes);
    }
  }

  lemma ConcludeStaffs(task: Task, f: Frame, ranked: seq<Candidate>, excluded: seq<Exclusion>, p: Resolution)
    requires Missing(f.required, ranked) == [] && p.Proceed? && p == Resolve(f, Min(f.budget.maxProviders, |ranked|))
    ensures Conclude(task, f, ranked, excluded) == Staff(
        task, f, ranked, excluded, p.mode, p.protocol, p.target, p.approval, p.degradation,
        FrameReasons(task, f) + p.notes)
  {
    hide Resolve, Staff, FrameReasons;
  }

  lemma StaffTerms(
    task: Task, f: Frame, ranked: seq<Candidate>, excluded: seq<Exclusion>, p: Resolution, reasons: seq<Reason>)
    requires p.Proceed?
    ensures var d := Staff(
        task, f, ranked, excluded, p.mode, p.protocol, p.target, p.approval, p.degradation, reasons);
      && d.budget == f.budget && d.behavior == f.behavior && (d.requireLease <==> task.repositoryWrite)
      && d.requireApproval == p.approval && d.mode == p.mode && d.protocol == p.protocol && d.target == p.target
      && (d.disposition == Execute <==> d.allowed && !p.approval)
      && (d.disposition == RequireHumanApproval <==> d.allowed && p.approval)
      && d.summary.missingKeys == []
  {
    hide Picked, Kept, EstimatesOf, SaturatedCost, Floor, Goal, Roles;
  }

  /** Falling back to one agent, or failing to, asks for approval; nothing else adds to the frame's need of it. */
  lemma ApprovalOfResolution(f: Frame, capacity: nat)
    requires BehaviorRank(f.behavior) < BehaviorRank(QueueUntilAvailable) ==> f.required == []
    ensures var p, running := Resolve(f, capacity), RunningMode(f, capacity);
      var approval := f.approval || (f.behavior == FallbackToSingle && running != Some(f.mode));
      if p.Proceed? then p.approval == approval else p.stopApproval == approval
  {
  }

  // ---- valid requests --------------------------------------------------------------------------

  /** One to `limit` printable bytes, apart from outer white space. */
  ghost predicate Plain(raw: string, limit: nat) {
    Trim(raw) != "" && Utf8Len(Trim(raw)) < limit + 1 && forall c | c in Trim(raw) :: !IsControl(c)
  }

  ghost predicate PlainCapabilities(values: seq<string>) {
    && |values| < 65
    && forall v | v in values :: Lower(Trim(v)) != "" && Utf8Len(Lower(Trim(v))) < 121 && Printable(Lower(Trim(v)))
  }

  /** What the engine accepts, with its limits spelled out. */
  lemma ValidMeans(r: Request)
    ensures Valid(r) <==>
        && 1 <= |r.providers| < 33
        && (forall c | c in r.providers :: PlainCandidate(c))
        && (forall i, j | 0 <= i < |r.providers| && 0 <= j < |r.providers| && i != j ::
              Trim(r.providers[i].agentKey) != Trim(r.providers[j].agentKey))
        && |r.task.requiredAgentKeys| < 9 && PlainCapabilities(r.task.requiredCapabilities)
        && (forall k | k in r.task.requiredAgentKeys :: Plain(k, 120) && OfferedBy(r, k))
        && (forall i, j | 0 <= i < |r.task.requiredAgentKeys| && 0 <= j < |r.task.requiredAgentKeys| && i != j ::
              Trim(r.task.requiredAgentKeys[i]) != Trim(r.task.requiredAgentKeys[j]))
        && (r.task.requiredReviewer.Some? ==>
              Plain(r.task.requiredReviewer.value, 120) && OfferedBy(r, r.task.requiredReviewer.value))
  {
    hide Trim, Plain, ValidAgentKey, ValidText, PlainCapabilities, ValidCapabilities, OfferedBy, Offered,
      ValidCandidate;
    forall raw
      ensures Plain(raw, 120) <==> ValidAgentKey(raw)
      ensures OfferedBy(r, raw) <==> Offered(r.providers, Trim(raw))
    {
      PlainMeans(raw);
      OfferedMeans(r, raw);
    }
    CapabilitiesMean(r.task.requiredCapabilities);
    forall c | c in r.providers
      ensures ValidCandidate(c) <==> PlainCandidate(c)
    {
      CandidateMeans(c);
    }
    KeysMean(r);
  }

  /** The limits of one candidate. */
  ghost predicate PlainCandidate(c: Candidate) {
    && Plain(c.agentKey, 120) && Plain(c.model, 200) && PlainCapabilities(c.capabilities)
    && c.quality < 10_001 && c.health < 10_001 && c.errorRate < 10_001
  }

  lemma PlainMeans(raw: string)
    ensures Plain(raw, 120) <==> ValidAgentKey(raw)
    ensures Plain(raw, 200) <==> ValidText(Trim(raw), 200)
  {
    hide Trim, Utf8Len, IsControl;
  }

  lemma CapabilitiesMean(values: seq<string>)
    ensures PlainCapabilities(values) <==> ValidCapabilities(values)
  {
    hide Trim, Utf8Len, Lower, Printable;
  }

  lemma CandidateMeans(c: Candidate)
    ensures ValidCandidate(c) <==> PlainCandidate(c)
  {
    PlainMeans(c.agentKey);
    PlainMeans(c.model);
    CapabilitiesMean(c.capabilities);
    hide Trim, Plain, ValidAgentKey, ValidText, PlainCapabilities, ValidCapabilities;
  }

  lemma OfferedMeans(r: Request, key: string)
    ensures OfferedBy(r, key) <==> Offered(r.providers, Trim(key))
  {
    hide Trim;
  }

  lemma KeysMean(r: Request)
    ensures DistinctProviderKeys(r.providers) <==>
        forall i, j | 0 <= i < |r.providers| && 0 <= j < |r.providers| && i != j ::
          Trim(r.providers[i].agentKey) != Trim(r.providers[j].agentKey)
    ensures DistinctRequiredKeys(r.task.requiredAgentKeys) <==>
        forall i, j | 0 <= i < |r.task.requiredAgentKeys| && 0 <= j < |r.task.requiredAgentKeys| && i != j ::
          Trim(r.task.requiredAgentKeys[i]) != Trim(r.task.requiredAgentKeys[j])
  {
    hide Trim;
  }

  /** A candidate has this key, up to outer white space. */
  ghost predicate OfferedBy(r: Request, key: string) {
    exists c | c in r.providers :: Trim(c.agentKey) == Trim(key)
  }
}
