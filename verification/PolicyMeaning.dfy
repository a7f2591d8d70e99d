/** What the policy decides about mode, protocol, degradation and approval, told from the request alone. */
module PolicyMeaning {
  import opened Prelude
  import opened WorkflowModes
  import opened Text
  import opened Sequences
  import opened PolicyTypes
  import opened PolicyRules
  import opened PolicyDecision
  import opened PolicySelection
  import opened PolicyTheorems

  // ---- the frame ---------------------------------------------------------------------------

  /** A required capability is one of the security-sensitive ones. */
  ghost predicate NamesSecurity(task: Task) {
    exists raw | raw in task.requiredCapabilities ::
      Lower(Trim(raw)) in {"security", "secrets", "authentication", "authorization", "cryptography"}
  }

  /** The risk level `t` is reached. */
  ghost predicate RiskReaches(task: Task, t: TaskRisk) {
    match t
    case Low => true
    case Medium =>
      task.risk != Low || task.repositoryWrite || NamesSecurity(task) || task.sensitivity == Restricted
    case High =>
      task.risk == High || task.risk == Critical || NamesSecurity(task) || task.sensitivity == Restricted
    case Critical => task.risk == Critical || task.sensitivity == Restricted
  }

  /** The effective risk is the highest level reached. */
  lemma EffectiveRiskMeans(task: Task)
    ensures forall t: TaskRisk :: RiskRank(EffectiveRisk(task)) >= RiskRank(t) <==> RiskReaches(task, t)
  {
    hide Lower, Trim;
    var required := Capabilities(task.requiredCapabilities);
    if NamesSecurity(task) {
      var raw :| raw in task.requiredCapabilities
        && Lower(Trim(raw)) in {"security", "secrets", "authentication", "authorization", "cryptography"};
      assert Capability(raw) in required;
    }
    assert SecuritySensitive(required) <==> NamesSecurity(task);
  }

  /** The mode a protocol is for. */
  ghost predicate ModeFor(p: Protocol, m: Mode) {
    match p
    case Direct => m == Single
    case SequentialHandoff => m == Sequential
    case IndependentCandidates => m == Competitive
    case _ => m == Consensus
  }

  /** Risk and repository writes alone call for at least the mode `m`. */
  ghost predicate RiskNeeds(task: Task, m: Mode) {
    m == Single || RiskReaches(task, High) || (m == Sequential && task.repositoryWrite)
  }

  /** Something other than the requested mode calls for at least the mode `m`. */
  ghost predicate PolicyNeeds(task: Task, m: Mode) {
    || RiskNeeds(task, m)
    || task.requiredReviewer.Some?
    || (task.requestedProtocol.Some?
        && exists n: Mode :: ModeFor(task.requestedProtocol.value, n) && ModeRank(n) >= ModeRank(m))
    || (task.requestedProtocol.None? && RequestNeeds(task, m))
  }

  ghost predicate RequestNeeds(task: Task, m: Mode) {
    task.requestedMode.Some? && ModeRank(task.requestedMode.value) >= ModeRank(m)
  }

  /** The mode is the least that everything agrees to; the budget follows what the policy needs, not what was asked. */
  lemma ModeMeans(task: Task)
    ensures var f := FrameOf(task);
      && (forall m: Mode :: ModeRank(f.mode) >= ModeRank(m) <==> PolicyNeeds(task, m) || RequestNeeds(task, m))
      && (forall m: Mode :: ModeRank(f.requiredMode) >= ModeRank(m) <==> PolicyNeeds(task, m))
      && (if task.requestedMode.Some? then f.requestedMode == task.requestedMode.value
          else forall m: Mode :: ModeRank(f.requestedMode) >= ModeRank(m) <==> RiskNeeds(task, m))
  {
    hide EffectiveRisk, RequiredSelection, ClampBudget, BudgetProfile, RiskNeeds, MinimumMode;
    BaseMeans(task);
    assert RiskNeeds(task, Single);
  }

  lemma BaseMeans(task: Task)
    ensures forall m: Mode ::
        ModeRank(MinimumMode(EffectiveRisk(task), task.sensitivity, task.repositoryWrite)) >= ModeRank(m)
        <==> RiskNeeds(task, m)
  {
    hide EffectiveRisk, RiskReaches;
    EffectiveRiskMeans(task);
    WriteReachesMedium(task);
    assert RiskReaches(task, Medium) <==> RiskRank(EffectiveRisk(task)) >= 1;
    assert RiskReaches(task, High) <==> RiskRank(EffectiveRisk(task)) >= 2;
  }

  lemma WriteReachesMedium(task: Task)
    ensures task.repositoryWrite ==> RiskReaches(task, Medium)
    ensures task.sensitivity == Restricted ==> RiskReaches(task, High)
  {
  }

  /** A requested protocol of the mode is kept, otherwise the mode's plain one runs; two have their own executors. */
  lemma ProtocolMeans(task: Task)
    ensures var f := FrameOf(task);
      && ModeFor(f.protocol, f.mode)
      && (task.requestedProtocol.Some? && ModeFor(task.requestedProtocol.value, f.mode) ==>
            f.protocol == task.requestedProtocol.value)
      && (!(task.requestedProtocol.Some? && ModeFor(task.requestedProtocol.value, f.mode)) ==>
            f.protocol in {Direct, SequentialHandoff, IndependentCandidates, ReviewerConsensus})
      && (f.target.BlindCompetition? <==> f.protocol.BlindReveal?)
      && (f.target.AdversarialExecutor? <==> f.protocol.AdversarialReview?)
      && (task.requestedProtocol.Some? ==> f.requestedProtocol == task.requestedProtocol.value)
      && (task.requestedProtocol.None? ==>
            && ModeFor(f.requestedProtocol, f.requestedMode)
            && f.requestedProtocol in {Direct, SequentialHandoff, IndependentCandidates, ReviewerConsensus})
  {
    hide EffectiveRisk, RequiredSelection, ClampBudget, BudgetProfile, MinimumMode;
  }

  /** Some provider is asked for by name, or the work needs an executor of its own. */
  ghost predicate Particular(task: Task) {
    task.requiredAgentKeys != [] || task.requiredReviewer.Some?
    || task.requestedProtocol == Some(BlindReveal) || task.requestedProtocol == Some(AdversarialReview)
  }

  /** The risk alone calls for at least the degradation policy `b`. */
  ghost predicate RiskTightens(task: Task, b: Behavior) {
    match b
    case ReduceProviderCount => true
    case FallbackToSingle => RiskReaches(task, Medium)
    case QueueUntilAvailable => RiskReaches(task, High) || task.repositoryWrite
    case FailClosed => RiskReaches(task, Critical)
  }

  /** The degradation policy is the loosest that risk, request and named providers agree to. */
  lemma BehaviorMeans(task: Task)
    ensures var f := FrameOf(task);
      forall b: Behavior :: BehaviorRank(f.behavior) >= BehaviorRank(b) <==>
        || RiskTightens(task, b)
        || (task.requestedDegradation.Some? && BehaviorRank(task.requestedDegradation.value) >= BehaviorRank(b))
        || (b != FailClosed && Particular(task))
  {
    hide EffectiveRisk, RequiredSelection, ClampBudget, BudgetProfile, RiskReaches, MinimumMode, SelectedProtocol,
      ExecutionTarget, SaferMode, ProtocolMode, DefaultProtocol, Trim, ReviewerKey;
    var f := FrameOf(task);
    NamedProviders(task);
    SpecializedByRequest(f.mode, task.requestedProtocol, f.requestedMode);
    DefaultMeans(task);
  }

  lemma DefaultMeans(task: Task)
    ensures forall b: Behavior ::
        BehaviorRank(DefaultBehavior(EffectiveRisk(task), task.sensitivity, task.repositoryWrite)) >= BehaviorRank(b)
        <==> RiskTightens(task, b)
  {
    hide EffectiveRisk, RiskReaches;
    EffectiveRiskMeans(task);
    WriteReachesMedium(task);
    RiskChain(task);
    assert RiskReaches(task, Medium) <==> RiskRank(EffectiveRisk(task)) >= 1;
    assert RiskReaches(task, High) <==> RiskRank(EffectiveRisk(task)) >= 2;
    assert RiskReaches(task, Critical) <==> RiskRank(EffectiveRisk(task)) >= 3;
  }

  lemma RiskChain(task: Task)
    ensures RiskReaches(task, Critical) ==> RiskReaches(task, High)
    ensures RiskReaches(task, High) ==> RiskReaches(task, Medium)
    ensures task.sensitivity == Restricted ==> RiskReaches(task, Critical)
  {
  }

  lemma NamedProviders(task: Task)
    ensures RequiredSelection(task) != [] <==> task.requiredAgentKeys != [] || task.requiredReviewer.Some?
  {
    hide Trim, Codes;
    assert |RequiredSelection(task)| == |NamedKeys(task)|;
    assert |TrimAll(task.requiredAgentKeys)| == |task.requiredAgentKeys|;
  }

  /** A human approves what is risky or writes the repository. */
  lemma ApprovalMeans(task: Task)
    ensures FrameOf(task).approval <==> RiskReaches(task, High) || task.repositoryWrite
  {
    hide EffectiveRisk, RequiredSelection, ClampBudget, BudgetProfile, RiskReaches, MinimumMode, SelectedProtocol,
      ExecutionTarget, SaferMode, ProtocolMode, DefaultProtocol, ReviewerKey, EffectiveBehavior, DefaultBehavior;
    EffectiveRiskMeans(task);
    WriteReachesMedium(task);
    RiskChain(task);
    assert RiskReaches(task, Medium) <==> RiskRank(EffectiveRisk(task)) >= 1;
    assert RiskReaches(task, High) <==> RiskRank(EffectiveRisk(task)) >= 2;
  }

  /** The budget tier follows the risk and the number of providers the policy needs. */
  lemma BudgetMeans(task: Task)
    ensures var f := FrameOf(task);
      && (forall t: TaskRisk :: RiskRank(f.budgetRisk) >= RiskRank(t) <==>
            || RiskReaches(task, t)
            || (t == Medium && PolicyNeeds(task, Sequential))
            || (t == High && PolicyNeeds(task, Competitive)))
      && f.budget == ClampBudget(task.requestedBudget, BudgetProfile(f.budgetRisk))
  {
    hide EffectiveRisk, RequiredSelection, ClampBudget, BudgetProfile, RiskReaches, MinimumMode, SelectedProtocol,
      ExecutionTarget, SaferMode, ProtocolMode, DefaultProtocol, ReviewerKey, EffectiveBehavior, DefaultBehavior,
      PolicyNeeds;
    var f := FrameOf(task);
    EffectiveRiskMeans(task);
    ModeMeans(task);
    assert PolicyNeeds(task, Sequential) <==> ModeRank(f.requiredMode) >= 1;
    assert PolicyNeeds(task, Competitive) <==> ModeRank(f.requiredMode) >= 2;
    forall t: TaskRisk
      ensures RiskRank(f.budgetRisk) >= RiskRank(t) <==>
          || RiskReaches(task, t)
          || (t == Medium && PolicyNeeds(task, Sequential))
          || (t == High && PolicyNeeds(task, Competitive))
    {
      CompetitiveNeedsSequential(task);
      BudgetRiskAt(f.requiredMode, f.risk, t);
    }
  }

  lemma CompetitiveNeedsSequential(task: Task)
    ensures PolicyNeeds(task, Competitive) ==> PolicyNeeds(task, Sequential)
  {
    hide RiskReaches;
    ModeMeans(task);
    assert PolicyNeeds(task, Sequential) <==> ModeRank(FrameOf(task).requiredMode) >= ModeRank(Sequential);
    assert PolicyNeeds(task, Competitive) <==> ModeRank(FrameOf(task).requiredMode) >= ModeRank(Competitive);
  }

  lemma BudgetRiskAt(m: Mode, risk: TaskRisk, t: TaskRisk)
    ensures RiskRank(BudgetRisk(m, risk)) >= RiskRank(t) <==>
        || RiskRank(risk) >= RiskRank(t)
        || (RiskRank(t) <= 1 && ModeRank(m) >= 1)
        || (RiskRank(t) <= 2 && ModeRank(m) >= 2)
  {
  }

  /** Budgets grow with the tier; every tier lets its own modes run. */
  lemma ProfilesGrow(low: TaskRisk, high: TaskRisk)
    requires RiskRank(low) <= RiskRank(high)
    ensures Within(BudgetProfile(low), BudgetProfile(high)) && Positive(BudgetProfile(low))
    ensures BudgetProfile(Medium).maxProviders >= MinimumCount(Sequential)
    ensures BudgetProfile(High).maxProviders >= DesiredCount(Consensus, 32)
  {
  }
}
