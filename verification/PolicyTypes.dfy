/** The request and decision records of the execution policy. */
module PolicyTypes {
  import opened Prelude
  import opened WorkflowModes
  import opened Text

  datatype TaskRisk = Low | Medium | High | Critical
  datatype Sensitivity = Public | Internal | Confidential | Restricted
  datatype Availability = Available | Degraded | Outage | Disabled
  datatype ProviderRole = Worker | Reviewer
  datatype Behavior = FailClosed | ReduceProviderCount | FallbackToSingle | QueueUntilAvailable
  datatype Protocol =
    | Direct
    | SequentialHandoff
    | IndependentCandidates
    | BlindReveal
    | ReviewerConsensus
    | AdversarialReview
  datatype Target = StandardWorkflow | BlindCompetition | AdversarialExecutor
  datatype Disposition = Execute | RequireHumanApproval | Queue | Deny
  datatype ExclusionReason = IsDisabled | InOutage | Unavailable | RestrictedTrustRequired | MissingCapability

  datatype Candidate = Candidate(
    agentKey: string,
    kind: nat,
    model: string,
    available: bool,
    availability: Availability,
    capabilities: seq<string>,
    trustedForRestricted: bool,
    quality: U16,
    health: U16,
    errorRate: U16,
    latencyMs: U64,
    cost: U64,
    contextTokens: U64)
  {
    /** The key every comparison with requests and results uses. */
    function Key(): string { Trim(agentKey) }
  }

  datatype RequestedBudget = RequestedBudget(
    maxProviders: Option<U8>,
    maxRounds: Option<U8>,
    maxWallClockMs: Option<U64>,
    maxInputTokens: Option<U64>,
    maxOutputTokens: Option<U64>,
    maxRetries: Option<U8>,
    maxConcurrency: Option<U8>,
    maxCost: Option<U64>)

  datatype Budget = Budget(
    maxProviders: U8,
    maxRounds: U8,
    maxWallClockMs: U64,
    maxInputTokens: U64,
    maxOutputTokens: U64,
    maxRetries: U8,
    maxConcurrency: U8,
    maxCost: U64)

  /** Everything a request says apart from the list of candidates. */
  datatype Task = Task(
    risk: TaskRisk,
    sensitivity: Sensitivity,
    requestedMode: Option<Mode>,
    requestedProtocol: Option<Protocol>,
    requestedDegradation: Option<Behavior>,
    requiredAgentKeys: seq<string>,
    requiredReviewer: Option<string>,
    requiredCapabilities: seq<string>,
    repositoryWrite: bool,
    expectedDurationMs: U64,
    requestedBudget: RequestedBudget)

  datatype Request = Request(task: Task, providers: seq<Candidate>)

  datatype Selected = Selected(
    ordinal: nat, agentKey: string, kind: nat, model: string, role: ProviderRole, cost: U64)

  datatype Exclusion = Exclusion(agentKey: string, reason: ExclusionReason)

  datatype Summary = Summary(
    requestedMode: Mode,
    requiredMode: Mode,
    requestedProtocol: Protocol,
    selectedProtocol: Protocol,
    desiredCount: nat,
    minimumCount: nat,
    eligibleCount: nat,
    excludedCount: nat,
    requiredKeys: seq<string>,
    missingKeys: seq<string>,
    reviewer: Option<string>)

  datatype Estimates = Estimates(
    providerCount: nat,
    providerCalls: U64,
    totalCost: U64,
    wallClockMs: U64,
    minimumContextTokens: U64)

  datatype Trigger =
    | RequiredProvidersMissing(keys: seq<string>)
    | ProviderShortage(mode: Mode, minimum: nat, desired: nat)

  datatype Degradation = Degradation(
    behavior: Behavior,
    trigger: Trigger,
    fromMode: Mode,
    toMode: Option<Mode>,
    fromProtocol: Protocol,
    toProtocol: Option<Protocol>,
    approvalRequired: bool)

  /** The explanation lines of a decision; the wording is not modelled. */
  datatype Reason =
    | RiskElevated
    | BudgetElevated(from: TaskRisk, to: TaskRisk, mode: Mode)
    | ModeRaised(requested: Mode, mode: Mode)
    | ProtocolRaised(requestedProtocol: Protocol, protocol: Protocol, raisedMode: Mode)
    | DegradationTightened(default: Behavior, behavior: Behavior)
    | Shortage(trigger: Trigger)
    | FellBackToSingle
    | ReducedMode(fromMode: Mode, toMode: Mode)
    | CostReduced
    | ProtocolExplained(explained: Protocol)
    | RankedDeterministically
    | SelectedCount(count: nat)

  datatype Denial =
    | Blocked(trigger: Trigger)
    | NoFallbackProvider
    | NoEligibleProvider
    | InfeasibleAfterDegradation
    | CostCeiling
    | DurationCeiling(expected: U64, ceiling: U64)

  datatype Decision = Decision(
    allowed: bool,
    disposition: Disposition,
    mode: Mode,
    protocol: Protocol,
    target: Target,
    selected: seq<Selected>,
    excluded: seq<Exclusion>,
    summary: Summary,
    estimates: Estimates,
    budget: Budget,
    requireApproval: bool,
    requireLease: bool,
    behavior: Behavior,
    degradation: Option<Degradation>,
    reasons: seq<Reason>,
    denial: Option<Denial>)
}
