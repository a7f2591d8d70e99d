/** What a policy decision is, as a function of a valid request. */
module PolicyDecision {
  import opened Prelude
  import opened WorkflowModes
  import opened Text
  import opened Sequences
  import opened PolicyTypes
  import opened PolicyRules

  // ---- what the task alone settles ---------------------------------------------------

  /** Everything decided before any candidate is looked at. */
  datatype Frame = Frame(
    required: seq<string>,
    reviewer: Option<string>,
    risk: TaskRisk,
    requestedMode: Mode,
    requestedProtocol: Protocol,
    requiredMode: Mode,
    budgetRisk: TaskRisk,
    budget: Budget,
    mode: Mode,
    protocol: Protocol,
    target: Target,
    defaultBehavior: Behavior,
    behavior: Behavior,
    approval: bool)

  function TrimAll(keys: seq<string>): (r: seq<string>)
    ensures |r| == |keys| && forall i | 0 <= i < |keys| :: r[i] == Trim(keys[i])
  {
    seq(|keys|, i requires 0 <= i < |keys| => Trim(keys[i]))
  }

  function ReviewerKey(task: Task): Option<string> {
    if task.requiredReviewer.Some? then Some(Trim(task.requiredReviewer.value)) else None
  }

  /** The required keys and the reviewer, each once. */
  function NamedKeys(task: Task): seq<string> {
    var keys, reviewer := TrimAll(task.requiredAgentKeys), ReviewerKey(task);
    if reviewer.Some? && reviewer.value !in keys then keys + [reviewer.value] else keys
  }

  /** The required keys and the reviewer as an ordered set, in iteration order. */
  function RequiredSelection(task: Task): seq<string> { Sort(Codes, NamedKeys(task)) }

  function BudgetRisk(required: Mode, risk: TaskRisk): TaskRisk {
    match required
    case Single => risk
    case Sequential => MaxRisk(risk, Medium)
    case Competitive => MaxRisk(risk, High)
    case Consensus => MaxRisk(risk, High)
  }

  function FrameOf(task: Task): Frame {
    var required, reviewer := RequiredSelection(task), ReviewerKey(task);
    var risk := EffectiveRisk(task);
    var base := MinimumMode(risk, task.sensitivity, task.repositoryWrite);
    var requestedMode := if task.requestedMode.Some? then task.requestedMode.value else base;
    var requestedProtocol :=
      if task.requestedProtocol.Some? then task.requestedProtocol.value else DefaultProtocol(requestedMode);
    var requiredMode :=
      SaferMode(SaferMode(base, ProtocolMode(requestedProtocol)), if reviewer.Some? then Consensus else Single);
    var budgetRisk := BudgetRisk(requiredMode, risk);
    var mode := SaferMode(requestedMode, requiredMode);
    var protocol := SelectedProtocol(mode, requestedProtocol);
    var target := ExecutionTarget(protocol);
    var default := DefaultBehavior(risk, task.sensitivity, task.repositoryWrite);
    Frame(
      required, reviewer, risk, requestedMode, requestedProtocol, requiredMode, budgetRisk,
      ClampBudget(task.requestedBudget, BudgetProfile(budgetRisk)),
      mode, protocol, target, default,
      EffectiveBehavior(default, task.requestedDegradation, required != [], target != StandardWorkflow),
      RiskRank(risk) >= RiskRank(High) || task.sensitivity == Restricted
      || (task.repositoryWrite && RiskRank(risk) >= RiskRank(Medium)))
  }

  function FrameReasons(task: Task, f: Frame): seq<Reason> {
    (if RiskRank(f.risk) > RiskRank(task.risk) then [RiskElevated] else [])
    + (if RiskRank(f.budgetRisk) > RiskRank(f.risk) then [BudgetElevated(f.risk, f.budgetRisk, f.requiredMode)] else [])
    + (if f.mode != f.requestedMode then [ModeRaised(f.requestedMode, f.mode)] else [])
    + (if f.protocol != f.requestedProtocol then [ProtocolRaised(f.requestedProtocol, f.protocol, f.mode)] else [])
    + (if f.behavior != f.defaultBehavior then [DegradationTightened(f.defaultBehavior, f.behavior)] else [])
  }

  // ---- candidates ----------------------------------------------------------------------

  function IfEligible(required: set<string>, sensitivity: Sensitivity): Candidate -> Option<Candidate> {
    (c: Candidate) => if ExclusionOf(c, required, sensitivity).None? then Some(c) else None
  }

  function IfExcluded(required: set<string>, sensitivity: Sensitivity): Candidate -> Option<Exclusion> {
    (c: Candidate) =>
      match ExclusionOf(c, required, sensitivity)
      case Some(reason) => Some(Exclusion(c.Key(), reason))
      case None => None
  }

  function Eligible(task: Task, providers: seq<Candidate>): seq<Candidate> {
    Collect(IfEligible(Capabilities(task.requiredCapabilities), task.sensitivity), providers)
  }

  function Exclusions(task: Task, providers: seq<Candidate>): seq<Exclusion> {
    Collect(IfExcluded(Capabilities(task.requiredCapabilities), task.sensitivity), providers)
  }

  function Ranked(task: Task, providers: seq<Candidate>): seq<Candidate> {
    Sort(RankKey, Eligible(task, providers))
  }

  function Find(providers: seq<Candidate>, key: string): (r: Option<Candidate>)
    ensures r.Some? ==> r.value in providers && r.value.Key() == key
    ensures r.None? ==> !Offered(providers, key)
  {
    if providers == [] then None
    else if providers[0].Key() == key then Some(providers[0])
    else
      assert providers == [providers[0]] + providers[1..];
      Find(providers[1..], key)
  }

  function Missing(required: seq<string>, providers: seq<Candidate>): (r: seq<string>)
    ensures r == [] <==> forall k | k in required :: Offered(providers, k)
  {
    if required == [] then []
    else
      assert required == [required[0]] + required[1..];
      (if Offered(providers, required[0]) then [] else [required[0]]) + Missing(required[1..], providers)
  }

  // ---- mode resolution -------------------------------------------------------------------

  function Floor(mode: Mode, required: nat): nat { Max(MinimumCount(mode), required) }

  function Goal(mode: Mode, capacity: nat, required: nat): nat {
    Min(Max(DesiredCount(mode, capacity), required), capacity)
  }

  datatype Resolution =
    | Proceed(mode: Mode, protocol: Protocol, target: Target, approval: bool,
              degradation: Option<Degradation>, notes: seq<Reason>)
    | Stop(disposition: Disposition, stopApproval: bool, recorded: Option<Degradation>, denial: Denial)

  /** The mode that runs with `capacity` providers, after any degradation. */
  function Resolve(f: Frame, capacity: nat): Resolution {
    var need := |f.required|;
    var minimum, desired := Floor(f.mode, need), Goal(f.mode, capacity, need);
    if desired >= minimum then Proceed(f.mode, f.protocol, f.target, f.approval, None, [])
    else
      var trigger := ProviderShortage(f.mode, minimum, desired);
      var blocked := Degradation(f.behavior, trigger, f.mode, None, f.protocol, None, f.approval);
      match f.behavior
      case FailClosed => Stop(Deny, f.approval, Some(blocked), Blocked(trigger))
      case QueueUntilAvailable => Stop(Queue, f.approval, Some(blocked), Blocked(trigger))
      case FallbackToSingle =>
        if capacity == 0 then Stop(Deny, true, None, NoFallbackProvider)
        else
          Proceed(Single, Direct, StandardWorkflow, true,
                  Some(blocked.(toMode := Some(Single), toProtocol := Some(Direct), approvalRequired := true)),
                  [FellBackToSingle])
      case ReduceProviderCount =>
        match HighestFeasibleMode(capacity)
        case None => Stop(Deny, f.approval, None, NoEligibleProvider)
        case Some(feasible) =>
          var mode := if ModeRank(feasible) > ModeRank(f.mode) then f.mode else feasible;
          var protocol := DefaultProtocol(mode);
          Proceed(mode, protocol, ExecutionTarget(protocol), f.approval,
                  Some(blocked.(toMode := Some(mode), toProtocol := Some(protocol))),
                  [ReducedMode(f.mode, mode)])
  }

  // ---- selection ---------------------------------------------------------------------------

  /** The eligible candidates nobody required, best first. */
  function Optional(ranked: seq<Candidate>, required: seq<string>): (r: seq<Candidate>)
    ensures |r| <= |ranked|
  {
    if ranked == [] then []
    else (if ranked[0].Key() in required then [] else [ranked[0]]) + Optional(ranked[1..], required)
  }

  function FindAll(required: seq<string>, ranked: seq<Candidate>): (r: seq<Candidate>)
    ensures |r| <= |required|
  {
    if required == [] then []
    else
      (match Find(ranked, required[0]) case Some(c) => [c] case None => []) + FindAll(required[1..], ranked)
  }

  function IndexOf(s: seq<Candidate>, key: string): (i: nat)
    ensures i <= |s|
    ensures i < |s| ==> s[i].Key() == key
    ensures forall j | 0 <= j < i :: s[j].Key() != key
  {
    if s == [] || s[0].Key() == key then 0 else 1 + IndexOf(s[1..], key)
  }

  function ReviewerLast(s: seq<Candidate>, reviewer: Option<string>): seq<Candidate> {
    if reviewer.None? then s
    else
      var i := IndexOf(s, reviewer.value);
      if i < |s| then s[..i] + s[i + 1..] + [s[i]] else s
  }

  /** Required candidates first, then the best optional ones up to `desired`; the reviewer last. */
  function Picked(f: Frame, ranked: seq<Candidate>, desired: nat): seq<Candidate> {
    var found, optional := FindAll(f.required, ranked), Optional(ranked, f.required);
    var room := Min(|optional|, Max(desired - |found|, 0));
    ReviewerLast(found + optional[..room], f.reviewer)
  }

  /** The exact cost of a set of candidates. */
  function Cost(s: seq<Candidate>): nat {
    if s == [] then 0 else Cost(s[..|s| - 1]) + s[|s| - 1].cost
  }

  /** `total_estimated_cost`: the sum with `u64` saturation. */
  function SaturatedCost(s: seq<Candidate>): U64 {
    if s == [] then 0 else SaturatingAdd(SaturatedCost(s[..|s| - 1]), s[|s| - 1].cost)
  }

  /** How many of the best candidates remain once the worst are dropped for cost. */
  function Affordable(s: seq<Candidate>, n: nat, floor: nat, ceiling: nat): (r: nat)
    requires n <= |s|
    ensures r <= n
  {
    if n > floor && SaturatedCost(s[..n]) > ceiling then Affordable(s, n - 1, floor, ceiling) else n
  }

  /** Only candidates nobody asked for may be dropped for cost. */
  predicate Removable(f: Frame, c: Candidate) {
    c.Key() !in f.required && (f.reviewer.None? || c.Key() != f.reviewer.value)
  }

  /** `rposition`: one past the last removable candidate, or 0 when there is none. */
  function LastRemovable(f: Frame, s: seq<Candidate>): (n: nat)
    ensures n <= |s|
    ensures n > 0 ==> Removable(f, s[n - 1])
    ensures forall j | n <= j < |s| :: !Removable(f, s[j])
  {
    if s == [] || Removable(f, s[|s| - 1]) then |s| else LastRemovable(f, s[..|s| - 1])
  }

  /** What the cost reduction leaves of a pick. */
  function Kept(f: Frame, picked: seq<Candidate>, floor: nat): (r: seq<Candidate>)
    ensures |r| <= |picked|
    decreases |picked|
  {
    if SaturatedCost(picked) > f.budget.maxCost && |picked| > floor && f.behavior == ReduceProviderCount then
      var n := LastRemovable(f, picked);
      if n == 0 then picked else Kept(f, picked[..n - 1] + picked[n..], floor)
    else picked
  }

  // ---- estimates -----------------------------------------------------------------------------

  function SaturatedLatency(s: seq<Candidate>): U64 {
    if s == [] then 0 else SaturatingAdd(SaturatedLatency(s[..|s| - 1]), s[|s| - 1].latencyMs)
  }

  function WorstLatency(s: seq<Candidate>): U64 {
    if s == [] then 0 else Max(WorstLatency(s[..|s| - 1]), s[|s| - 1].latencyMs)
  }

  /** The smallest advertised context window, or 0 when none is advertised. */
  function SmallestContext(s: seq<Candidate>): U64 {
    if s == [] then 0
    else
      var rest, here := SmallestContext(s[..|s| - 1]), s[|s| - 1].contextTokens;
      if here == 0 then rest else if rest == 0 then here else Min(rest, here)
  }

  function EstimatesOf(task: Task, mode: Mode, kept: seq<Candidate>, budget: Budget): Estimates {
    Estimates(
      |kept|,
      Min(|kept| * budget.maxRounds, U64_MAX),
      SaturatedCost(kept),
      if task.expectedDurationMs > 0 then task.expectedDurationMs
      else if mode == Sequential then SaturatedLatency(kept)
      else WorstLatency(kept),
      SmallestContext(kept))
  }

  // ---- the decision ----------------------------------------------------------------------------

  function SummaryOf(
    f: Frame, protocol: Protocol, mode: Mode, eligible: nat, excluded: nat, missing: seq<string>): Summary
  {
    var capacity := Min(f.budget.maxProviders, eligible);
    Summary(
      f.requestedMode, f.requiredMode, f.requestedProtocol, protocol,
      Goal(mode, capacity, |f.required|), Floor(mode, |f.required|),
      eligible, excluded, f.required, missing, f.reviewer)
  }

  function Refusal(
    task: Task, f: Frame, disposition: Disposition, mode: Mode, protocol: Protocol, target: Target,
    approval: bool, degradation: Option<Degradation>, reasons: seq<Reason>, denial: Denial,
    eligible: nat, missing: seq<string>, excluded: seq<Exclusion>): Decision
  {
    Decision(
      false, disposition, mode, protocol, target, [], excluded,
      SummaryOf(f, protocol, mode, eligible, |excluded|, missing),
      Estimates(0, 0, 0, 0, 0), f.budget, approval, task.repositoryWrite, f.behavior, degradation,
      reasons, Some(denial))
  }

  function Roles(mode: Mode, kept: seq<Candidate>): (r: seq<Selected>)
    ensures |r| == |kept|
  {
    seq(|kept|, i requires 0 <= i < |kept| =>
      Selected(
        i, kept[i].Key(), kept[i].kind, Trim(kept[i].model),
        if mode == Consensus && i + 1 == |kept| then Reviewer else Worker,
        kept[i].cost))
  }

  /** The decision over the ranked eligible candidates. */
  function Conclude(task: Task, f: Frame, ranked: seq<Candidate>, excluded: seq<Exclusion>): Decision {
    var missing := Missing(f.required, ranked);
    var reasons := FrameReasons(task, f);
    if missing != [] then
      var trigger := RequiredProvidersMissing(missing);
      Refusal(
        task, f, if f.behavior == FailClosed then Deny else Queue, f.mode, f.protocol, f.target, f.approval,
        Some(Degradation(f.behavior, trigger, f.mode, None, f.protocol, None, f.approval)),
        reasons + [Shortage(trigger)], Blocked(trigger), |ranked|, missing, excluded)
    else
      match Resolve(f, Min(f.budget.maxProviders, |ranked|))
      case Stop(disposition, approval, recorded, denial) =>
        Refusal(
          task, f, disposition, f.mode, f.protocol, f.target, approval, recorded, reasons, denial,
          |ranked|, [], excluded)
      case Proceed(mode, protocol, target, approval, degradation, notes) =>
        Staff(task, f, ranked, excluded, mode, protocol, target, approval, degradation, reasons + notes)
  }

  /** Selection, cost reduction and the last two ceilings, once the mode is settled. */
  function Staff(
    task: Task, f: Frame, ranked: seq<Candidate>, excluded: seq<Exclusion>, mode: Mode, protocol: Protocol,
    target: Target, approval: bool, degradation: Option<Degradation>, reasons: seq<Reason>): Decision
  {
    var floor := Floor(mode, |f.required|);
    var goal := Goal(mode, Min(f.budget.maxProviders, |ranked|), |f.required|);
    if goal < floor then
      Refusal(
        task, f, Deny, mode, protocol, target, approval, degradation, reasons, InfeasibleAfterDegradation,
        |ranked|, [], excluded)
    else
      var picked := Picked(f, ranked, goal);
      var kept := Kept(f, picked, floor);
      Settle(
        task, f, |ranked|, excluded, mode, protocol, target, approval, degradation,
        if |kept| < |picked| then reasons + [CostReduced] else reasons, kept, floor)
  }

  /** The cost and duration ceilings, and the answer. */
  function Settle(
    task: Task, f: Frame, eligible: nat, excluded: seq<Exclusion>, mode: Mode, protocol: Protocol,
    target: Target, approval: bool, degradation: Option<Degradation>, reasons: seq<Reason>,
    kept: seq<Candidate>, floor: nat): Decision
  {
    if |kept| < floor || SaturatedCost(kept) > f.budget.maxCost then
      Refusal(
        task, f, Deny, mode, protocol, target, approval, degradation, reasons, CostCeiling,
        eligible, [], excluded)
    else if task.expectedDurationMs > 0 && task.expectedDurationMs > f.budget.maxWallClockMs then
      Refusal(
        task, f, Deny, mode, protocol, target, approval, degradation, reasons,
        DurationCeiling(task.expectedDurationMs, f.budget.maxWallClockMs), eligible, [], excluded)
    else
      Decision(
        true, if approval then RequireHumanApproval else Execute, mode, protocol, target,
        Roles(mode, kept), excluded, SummaryOf(f, protocol, mode, eligible, |excluded|, []),
        EstimatesOf(task, mode, kept, f.budget), f.budget, approval, task.repositoryWrite, f.behavior,
        degradation, reasons + [ProtocolExplained(protocol), RankedDeterministically, SelectedCount(|kept|)],
        None)
  }

  function Decide(r: Request): Decision
    requires Valid(r)
  {
    Conclude(r.task, FrameOf(r.task), Ranked(r.task, r.providers), Exclusions(r.task, r.providers))
  }
}
