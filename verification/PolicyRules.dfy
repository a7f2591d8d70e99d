/** Request validation, risk and mode rules, budgets and eligibility. */
module PolicyRules {
  import opened Prelude
  import opened WorkflowModes
  import opened Text
  import opened Sequences
  import opened PolicyTypes

  const MAX_PROVIDER_CANDIDATES := 32
  const MAX_REQUIRED_PROVIDER_KEYS := 8
  const MAX_CAPABILITIES := 64
  const MAX_CAPABILITY_BYTES := 120
  const MAX_AGENT_KEY_BYTES := 120
  const MAX_MODEL_BYTES := 200
  const ABS_MAX_PROVIDERS: U8 := 8
  const ABS_MAX_ROUNDS: U8 := 4
  const ABS_MAX_WALL_CLOCK_MS: U64 := 3_600_000
  const ABS_MAX_INPUT_TOKENS: U64 := 2_000_000
  const ABS_MAX_OUTPUT_TOKENS: U64 := 500_000
  const ABS_MAX_RETRIES: U8 := 5
  const ABS_MAX_CONCURRENCY: U8 := 8
  const ABS_MAX_COST: U64 := 200_000_000

  // ---- validation -----------------------------------------------------------------

  /** A trimmed text of 1..=limit printable bytes. */
  predicate ValidText(trimmed: string, limit: nat) {
    trimmed != [] && Utf8Len(trimmed) <= limit && Printable(trimmed)
  }

  predicate ValidAgentKey(raw: string) { ValidText(Trim(raw), MAX_AGENT_KEY_BYTES) }

  function Capability(raw: string): string { Lower(Trim(raw)) }

  predicate ValidCapabilities(values: seq<string>) {
    |values| <= MAX_CAPABILITIES
    && forall v | v in values :: ValidText(Capability(v), MAX_CAPABILITY_BYTES)
  }

  function Capabilities(values: seq<string>): set<string> { set v | v in values :: Capability(v) }

  predicate ValidCandidate(c: Candidate) {
    && ValidAgentKey(c.agentKey)
    && ValidText(Trim(c.model), MAX_MODEL_BYTES)
    && c.quality <= 10_000
    && c.health <= 10_000
    && c.errorRate <= 10_000
    && ValidCapabilities(c.capabilities)
  }

  predicate DistinctProviderKeys(providers: seq<Candidate>) {
    forall i, j | 0 <= i < j < |providers| :: providers[i].Key() != providers[j].Key()
  }

  predicate DistinctRequiredKeys(keys: seq<string>) {
    forall i, j | 0 <= i < j < |keys| :: Trim(keys[i]) != Trim(keys[j])
  }

  predicate Offered(providers: seq<Candidate>, key: string) {
    exists c | c in providers :: c.Key() == key
  }

  predicate ValidTask(task: Task) {
    && |task.requiredAgentKeys| <= MAX_REQUIRED_PROVIDER_KEYS
    && ValidCapabilities(task.requiredCapabilities)
    && (forall k | k in task.requiredAgentKeys :: ValidAgentKey(k))
    && DistinctRequiredKeys(task.requiredAgentKeys)
    && (task.requiredReviewer.Some? ==> ValidAgentKey(task.requiredReviewer.value))
  }

  /** The requests the engine accepts; every other request is an error. */
  predicate Valid(r: Request) {
    && 0 < |r.providers| <= MAX_PROVIDER_CANDIDATES
    && ValidTask(r.task)
    && (forall c | c in r.providers :: ValidCandidate(c))
    && DistinctProviderKeys(r.providers)
    && (forall k | k in r.task.requiredAgentKeys :: Offered(r.providers, Trim(k)))
    && (r.task.requiredReviewer.Some? ==> Offered(r.providers, Trim(r.task.requiredReviewer.value)))
  }

  // ---- risk and mode rules ---------------------------------------------------------

  function RiskRank(r: TaskRisk): nat {
    match r case Low => 0 case Medium => 1 case High => 2 case Critical => 3
  }

  function MaxRisk(a: TaskRisk, b: TaskRisk): TaskRisk { if RiskRank(a) >= RiskRank(b) then a else b }

  predicate SecuritySensitive(capabilities: set<string>) {
    exists c | c in capabilities ::
      c in {"security", "secrets", "authentication", "authorization", "cryptography"}
  }

  function EffectiveRisk(task: Task): TaskRisk {
    var sensitive := SecuritySensitive(Capabilities(task.requiredCapabilities));
    var stated := if sensitive then MaxRisk(task.risk, High) else task.risk;
    var write := if task.repositoryWrite then MaxRisk(stated, Medium) else stated;
    if task.sensitivity == Restricted then MaxRisk(write, Critical) else write
  }

  function MinimumMode(risk: TaskRisk, sensitivity: Sensitivity, repositoryWrite: bool): Mode {
    if sensitivity == Restricted || RiskRank(risk) >= RiskRank(High) then Consensus
    else if risk == Medium && repositoryWrite then Sequential
    else Single
  }

  function ProtocolMode(p: Protocol): Mode {
    match p
    case Direct => Single
    case SequentialHandoff => Sequential
    case IndependentCandidates => Competitive
    case BlindReveal => Consensus
    case ReviewerConsensus => Consensus
    case AdversarialReview => Consensus
  }

  function DefaultProtocol(m: Mode): Protocol {
    match m
    case Single => Direct
    case Sequential => SequentialHandoff
    case Competitive => IndependentCandidates
    case Consensus => ReviewerConsensus
  }

  function ModeRank(m: Mode): nat {
    match m case Single => 0 case Sequential => 1 case Competitive => 2 case Consensus => 3
  }

  function SaferMode(requested: Mode, required: Mode): Mode {
    if ModeRank(requested) >= ModeRank(required) then requested else required
  }

  function SelectedProtocol(mode: Mode, requested: Protocol): Protocol {
    if ModeRank(ProtocolMode(requested)) < ModeRank(mode) then DefaultProtocol(mode) else requested
  }

  function ExecutionTarget(p: Protocol): Target {
    match p
    case BlindReveal => BlindCompetition
    case AdversarialReview => AdversarialExecutor
    case _ => StandardWorkflow
  }

  function MinimumCount(m: Mode): nat {
    match m case Single => 1 case Sequential => 2 case Competitive => 2 case Consensus => 3
  }

  function DesiredCount(m: Mode, available: nat): nat {
    match m
    case Single => Min(available, 1)
    case Sequential => Min(available, 3)
    case Competitive => Min(available, 3)
    case Consensus => Min(available, 4)
  }

  function HighestFeasibleMode(available: nat): Option<Mode> {
    if available >= MinimumCount(Consensus) then Some(Consensus)
    else if available >= MinimumCount(Competitive) then Some(Competitive)
    else if available >= MinimumCount(Single) then Some(Single)
    else None
  }

  function BehaviorRank(b: Behavior): nat {
    match b
    case ReduceProviderCount => 0
    case FallbackToSingle => 1
    case QueueUntilAvailable => 2
    case FailClosed => 3
  }

  function DefaultBehavior(risk: TaskRisk, sensitivity: Sensitivity, repositoryWrite: bool): Behavior {
    if sensitivity == Restricted || risk == Critical then FailClosed
    else if RiskRank(risk) >= RiskRank(High) || repositoryWrite then QueueUntilAvailable
    else if risk == Medium then FallbackToSingle
    else ReduceProviderCount
  }

  function EffectiveBehavior(
    default: Behavior, requested: Option<Behavior>, hasRequired: bool, specialized: bool): Behavior
  {
    var chosen :=
      if requested.Some? && BehaviorRank(requested.value) > BehaviorRank(default) then requested.value else default;
    if (hasRequired || specialized) && BehaviorRank(chosen) < BehaviorRank(QueueUntilAvailable)
    then QueueUntilAvailable
    else chosen
  }

  // ---- budgets ----------------------------------------------------------------------

  function BudgetProfile(risk: TaskRisk): Budget {
    match risk
    case Low => Budget(1, 1, 600_000, 100_000, 25_000, 1, 1, 2_000_000)
    case Medium => Budget(3, 2, 1_800_000, 300_000, 75_000, 2, 3, 10_000_000)
    case High => Budget(4, 3, 2_700_000, 750_000, 200_000, 3, 4, 50_000_000)
    case Critical => Budget(4, 3, 3_600_000, 1_000_000, 250_000, 3, 4, 100_000_000)
  }

  function ClampSmall(requested: Option<U8>, profile: U8, absolute: U8): U8 {
    Min(Min(Max(if requested.Some? then requested.value else profile, 1), profile), absolute)
  }

  function Clamp(requested: Option<U64>, profile: U64, absolute: U64): U64 {
    Min(Min(Max(if requested.Some? then requested.value else profile, 1), profile), absolute)
  }

  function ClampBudget(b: RequestedBudget, p: Budget): Budget {
    Budget(
      ClampSmall(b.maxProviders, p.maxProviders, ABS_MAX_PROVIDERS),
      ClampSmall(b.maxRounds, p.maxRounds, ABS_MAX_ROUNDS),
      Clamp(b.maxWallClockMs, p.maxWallClockMs, ABS_MAX_WALL_CLOCK_MS),
      Clamp(b.maxInputTokens, p.maxInputTokens, ABS_MAX_INPUT_TOKENS),
      Clamp(b.maxOutputTokens, p.maxOutputTokens, ABS_MAX_OUTPUT_TOKENS),
      ClampSmall(b.maxRetries, p.maxRetries, ABS_MAX_RETRIES),
      ClampSmall(b.maxConcurrency, p.maxConcurrency, ABS_MAX_CONCURRENCY),
      Clamp(b.maxCost, p.maxCost, ABS_MAX_COST))
  }

  /** Componentwise order on budgets. */
  predicate Within(a: Budget, b: Budget) {
    && a.maxProviders <= b.maxProviders
    && a.maxRounds <= b.maxRounds
    && a.maxWallClockMs <= b.maxWallClockMs
    && a.maxInputTokens <= b.maxInputTokens
    && a.maxOutputTokens <= b.maxOutputTokens
    && a.maxRetries <= b.maxRetries
    && a.maxConcurrency <= b.maxConcurrency
    && a.maxCost <= b.maxCost
  }

  /** Every component is at least one. */
  predicate Positive(b: Budget) { Within(Budget(1, 1, 1, 1, 1, 1, 1, 1), b) }

  // ---- eligibility and ranking --------------------------------------------------------

  function ExclusionOf(c: Candidate, required: set<string>, sensitivity: Sensitivity): Option<ExclusionReason> {
    if !c.available then Some(Unavailable)
    else if c.availability == Disabled then Some(IsDisabled)
    else if c.availability == Outage then Some(InOutage)
    else if sensitivity == Restricted && !c.trustedForRestricted then Some(RestrictedTrustRequired)
    else if !(required <= Capabilities(c.capabilities)) then Some(MissingCapability)
    else None
  }

  function AvailabilityRank(a: Availability): nat {
    match a case Available => 0 case Degraded => 1 case Outage => 2 case Disabled => 3
  }

  /** The seven-key comparison that sorts the eligible candidates. */
  function CompareRank(a: Candidate, b: Candidate): Ordering {
    Compare(AvailabilityRank(a.availability), AvailabilityRank(b.availability))
    .Then(Compare(Min(a.quality, 10_000), Min(b.quality, 10_000)).Reverse())
    .Then(Compare(Min(a.health, 10_000), Min(b.health, 10_000)).Reverse())
    .Then(Compare(Min(a.errorRate, 10_000), Min(b.errorRate, 10_000)))
    .Then(Compare(a.latencyMs, b.latencyMs))
    .Then(Compare(a.cost, b.cost))
    .Then(CompareSeq(Codes(a.agentKey), Codes(b.agentKey)))
  }

  /** One sequence whose lexicographic order is the seven-key comparison. */
  function RankKey(c: Candidate): seq<int> {
    [AvailabilityRank(c.availability), -Min(c.quality, 10_000), -Min(c.health, 10_000),
     Min(c.errorRate, 10_000), c.latencyMs, c.cost] + Codes(c.agentKey)
  }

  lemma ComparePrefixed(x: int, s: seq<int>, y: int, t: seq<int>)
    ensures CompareSeq([x] + s, [y] + t) == Compare(x, y).Then(CompareSeq(s, t))
  {
    assert ([x] + s)[1..] == s && ([y] + t)[1..] == t;
  }

  lemma RankKeyCompares(a: Candidate, b: Candidate)
    ensures CompareRank(a, b) == CompareSeq(RankKey(a), RankKey(b))
  {
    hide CompareSeq, Codes, Min, AvailabilityRank;
    var s5, t5 := Codes(a.agentKey), Codes(b.agentKey);
    var s4, t4 := [a.cost] + s5, [b.cost] + t5;
    var s3, t3 := [a.latencyMs] + s4, [b.latencyMs] + t4;
    var s2, t2 := [Min(a.errorRate, 10_000)] + s3, [Min(b.errorRate, 10_000)] + t3;
    var s1, t1 := [-Min(a.health, 10_000)] + s2, [-Min(b.health, 10_000)] + t2;
    var s0, t0 := [-Min(a.quality, 10_000)] + s1, [-Min(b.quality, 10_000)] + t1;
    ComparePrefixed(a.cost, s5, b.cost, t5);
    ComparePrefixed(a.latencyMs, s4, b.latencyMs, t4);
    ComparePrefixed(Min(a.errorRate, 10_000), s3, Min(b.errorRate, 10_000), t3);
    ComparePrefixed(-Min(a.health, 10_000), s2, -Min(b.health, 10_000), t2);
    ComparePrefixed(-Min(a.quality, 10_000), s1, -Min(b.quality, 10_000), t1);
    ComparePrefixed(AvailabilityRank(a.availability), s0, AvailabilityRank(b.availability), t0);
    assert RankKey(a) == [AvailabilityRank(a.availability)] + s0;
    assert RankKey(b) == [AvailabilityRank(b.availability)] + t0;
  }

  /** The ranking is a strict total order on candidates, told apart by their raw keys. */
  lemma RankIsStrictTotalOrder(a: Candidate, b: Candidate, c: Candidate)
    ensures CompareRank(b, a) == CompareRank(a, b).Reverse()
    ensures a.agentKey != b.agentKey ==> !CompareRank(a, b).Equal?
    ensures CompareRank(a, b).Less? && CompareRank(b, c).Less? ==> CompareRank(a, c).Less?
  {
    RankKeyCompares(a, b);
    RankKeyCompares(b, a);
    RankKeyCompares(b, c);
    RankKeyCompares(a, c);
    CompareSeqReverse(RankKey(a), RankKey(b));
    RankKeyDistinct(a, b);
    if CompareRank(a, b).Less? && CompareRank(b, c).Less? {
      CompareSeqTransitive(RankKey(a), RankKey(b), RankKey(c));
    }
  }

  lemma RankKeyDistinct(a: Candidate, b: Candidate)
    ensures a.agentKey != b.agentKey ==> RankKey(a) != RankKey(b) && !CompareSeq(RankKey(a), RankKey(b)).Equal?
  {
    CompareSeqEqual(RankKey(a), RankKey(b));
    if RankKey(a) == RankKey(b) {
      assert Codes(a.agentKey) == RankKey(a)[6..] == RankKey(b)[6..] == Codes(b.agentKey);
      CodesInjective(a.agentKey, b.agentKey);
    }
  }

  // ---- what eligibility and rank mean ----------------------------------------------------

  /** The candidate advertises the capability, up to white space and case. */
  ghost predicate Advertises(c: Candidate, wanted: string) {
    exists own | own in c.capabilities :: Lower(Trim(own)) == Lower(Trim(wanted))
  }

  /** The candidate can be reached. */
  predicate Reachable(c: Candidate) { c.available && (c.availability == Available || c.availability == Degraded) }

  /** What a task asks of whoever is to run it. */
  ghost predicate Qualified(task: Task, c: Candidate) {
    && Reachable(c)
    && (task.sensitivity == Restricted ==> c.trustedForRestricted)
    && forall wanted | wanted in task.requiredCapabilities :: Advertises(c, wanted)
  }

  /** The reason is true of the candidate, and no reason that goes before it is. */
  ghost predicate Deserves(task: Task, c: Candidate, reason: ExclusionReason) {
    match reason
    case Unavailable => !c.available
    case IsDisabled => c.available && c.availability == Disabled
    case InOutage => c.available && c.availability == Outage
    case RestrictedTrustRequired => Reachable(c) && task.sensitivity == Restricted && !c.trustedForRestricted
    case MissingCapability =>
      && Reachable(c) && (task.sensitivity == Restricted ==> c.trustedForRestricted)
      && exists wanted | wanted in task.requiredCapabilities :: !Advertises(c, wanted)
  }

  lemma CapabilityTest(task: Task, c: Candidate)
    ensures Capabilities(task.requiredCapabilities) <= Capabilities(c.capabilities) <==>
        forall wanted | wanted in task.requiredCapabilities :: Advertises(c, wanted)
  {
    hide Lower, Trim;
    var required, own := Capabilities(task.requiredCapabilities), Capabilities(c.capabilities);
    if required <= own {
      forall wanted | wanted in task.requiredCapabilities
        ensures Advertises(c, wanted)
      {
        assert Capability(wanted) in required;
      }
    }
  }

  /** A candidate is excluded for exactly the reason it deserves, and is not when it is qualified. */
  lemma ExclusionMeans(task: Task, c: Candidate)
    ensures var excluded := ExclusionOf(c, Capabilities(task.requiredCapabilities), task.sensitivity);
      && (excluded.None? <==> Qualified(task, c))
      && forall reason :: excluded == Some(reason) <==> Deserves(task, c, reason)
  {
    hide Capabilities, Advertises;
    CapabilityTest(task, c);
  }

  /** `a` goes before `b`: the first of the seven criteria in which they differ decides. */
  ghost predicate GoesBefore(a: Candidate, b: Candidate) {
    if a.availability != b.availability then AvailabilityRank(a.availability) < AvailabilityRank(b.availability)
    else if a.quality != b.quality then a.quality > b.quality
    else if a.health != b.health then a.health > b.health
    else if a.errorRate != b.errorRate then a.errorRate < b.errorRate
    else if a.latencyMs != b.latencyMs then a.latencyMs < b.latencyMs
    else if a.cost != b.cost then a.cost < b.cost
    else CompareSeq(Codes(a.agentKey), Codes(b.agentKey)).Less?
  }

  /** On valid candidates the seven-key comparison is decided by the first difference. */
  lemma RankMeans(a: Candidate, b: Candidate)
    requires ValidCandidate(a) && ValidCandidate(b)
    ensures CompareRank(a, b).Less? <==> GoesBefore(a, b)
  {
    hide CompareSeq, Codes, ValidAgentKey, ValidText, ValidCapabilities;
  }

  // ---- laws of the rules ----------------------------------------------------------------

  /** A granted budget is positive, within the profile of its risk and within the absolute caps. */
  lemma ClampedBudgetBounds(b: RequestedBudget, risk: TaskRisk)
    ensures var g := ClampBudget(b, BudgetProfile(risk));
      Positive(g) && Within(g, BudgetProfile(risk)) && Within(g, BudgetProfile(Critical))
      && Within(g, Budget(8, 4, 3_600_000, 2_000_000, 500_000, 5, 8, 200_000_000))
  {
    assert Within(BudgetProfile(risk), BudgetProfile(Critical));
  }

  /** Asking for no more than the profile, and for at least one, is granted exactly. */
  lemma BudgetRequestHonoured(b: RequestedBudget, risk: TaskRisk)
    ensures var g, p := ClampBudget(b, BudgetProfile(risk)), BudgetProfile(risk);
      && (b.maxProviders.Some? && 1 <= b.maxProviders.value <= p.maxProviders ==>
            g.maxProviders == b.maxProviders.value)
      && (b.maxRounds.Some? && 1 <= b.maxRounds.value <= p.maxRounds ==> g.maxRounds == b.maxRounds.value)
      && (b.maxWallClockMs.Some? && 1 <= b.maxWallClockMs.value <= p.maxWallClockMs ==>
            g.maxWallClockMs == b.maxWallClockMs.value)
      && (b.maxInputTokens.Some? && 1 <= b.maxInputTokens.value <= p.maxInputTokens ==>
            g.maxInputTokens == b.maxInputTokens.value)
      && (b.maxOutputTokens.Some? && 1 <= b.maxOutputTokens.value <= p.maxOutputTokens ==>
            g.maxOutputTokens == b.maxOutputTokens.value)
      && (b.maxRetries.Some? && 1 <= b.maxRetries.value <= p.maxRetries ==> g.maxRetries == b.maxRetries.value)
      && (b.maxConcurrency.Some? && 1 <= b.maxConcurrency.value <= p.maxConcurrency ==>
            g.maxConcurrency == b.maxConcurrency.value)
      && (b.maxCost.Some? && 1 <= b.maxCost.value <= p.maxCost ==> g.maxCost == b.maxCost.value)
  {
    assert Within(BudgetProfile(risk), Budget(8, 4, 3_600_000, 2_000_000, 500_000, 5, 8, 200_000_000));
  }
}
