/** The engine as the bridge runs it, step by step, proved against the decision function. */
module PolicyEngine {
  import opened Prelude
  import opened WorkflowModes
  import opened Text
  import opened Sequences
  import opened PolicyTypes
  import opened PolicyRules
  import opened PolicyDecision

  datatype PolicyError =
    | NoProviders
    | TooManyProviders
    | TooManyRequiredKeys
    | TooManyCapabilities
    | BadAgentKey
    | DuplicateRequiredKey(key: string)
    | DuplicateProviderKey(key: string)
    | BadModel
    | ScoreOutOfRange(candidate: string)
    | BadCapabilities
    | RequiredAbsent(key: string)
    | ReviewerAbsent(key: string)

  /** The error names a rule the request really breaks. */
  ghost predicate Blames(r: Request, e: PolicyError) {
    match e
    case NoProviders => r.providers == []
    case TooManyProviders => |r.providers| > MAX_PROVIDER_CANDIDATES
    case TooManyRequiredKeys => |r.task.requiredAgentKeys| > MAX_REQUIRED_PROVIDER_KEYS
    case TooManyCapabilities => |r.task.requiredCapabilities| > MAX_CAPABILITIES
    case BadAgentKey =>
      (exists k | k in r.task.requiredAgentKeys :: !ValidAgentKey(k))
      || (r.task.requiredReviewer.Some? && !ValidAgentKey(r.task.requiredReviewer.value))
      || (exists c | c in r.providers :: !ValidAgentKey(c.agentKey))
    case DuplicateRequiredKey(key) =>
      exists i, j | 0 <= i < j < |r.task.requiredAgentKeys| ::
        Trim(r.task.requiredAgentKeys[i]) == Trim(r.task.requiredAgentKeys[j]) == key
    case DuplicateProviderKey(key) =>
      exists i, j | 0 <= i < j < |r.providers| :: r.providers[i].Key() == r.providers[j].Key() == key
    case BadModel => exists c | c in r.providers :: !ValidText(Trim(c.model), MAX_MODEL_BYTES)
    case ScoreOutOfRange(key) =>
      exists c | c in r.providers :: c.Key() == key && (c.quality > 10_000 || c.health > 10_000 || c.errorRate > 10_000)
    case BadCapabilities =>
      || !ValidCapabilities(r.task.requiredCapabilities)
      || exists c | c in r.providers :: !ValidCapabilities(c.capabilities)
    case RequiredAbsent(key) => key in TrimAll(r.task.requiredAgentKeys) && !Offered(r.providers, key)
    case ReviewerAbsent(key) => ReviewerKey(r.task) == Some(key) && !Offered(r.providers, key)
  }

  // ---- validation -------------------------------------------------------------------------

  method NormalizeCapabilities(values: seq<string>) returns (r: Option<set<string>>)
    ensures r.Some? <==> ValidCapabilities(values)
    ensures r.Some? ==> r.value == Capabilities(values)
  {
    if |values| > MAX_CAPABILITIES {
      return None;
    }
    var normalized: set<string> := {};
    for i := 0 to |values|
      invariant normalized == Capabilities(values[..i])
      invariant forall j | 0 <= j < i :: ValidText(Capability(values[j]), MAX_CAPABILITY_BYTES)
    {
      var value := Capability(values[i]);
      if !ValidText(value, MAX_CAPABILITY_BYTES) {
        assert values[i] in values;
        return None;
      }
      assert values[..i + 1] == values[..i] + [values[i]];
      normalized := normalized + {value};
    }
    assert values[..|values|] == values;
    return Some(normalized);
  }

  method NormalizeAgentKeys(values: seq<string>) returns (r: Result<seq<string>, PolicyError>)
    ensures r.Ok? <==> DistinctRequiredKeys(values) && forall k | k in values :: ValidAgentKey(k)
    ensures r.Ok? ==> r.value == TrimAll(values)
    ensures r.Err? ==> r.error.BadAgentKey? || r.error.DuplicateRequiredKey?
    ensures r.Err? && r.error.BadAgentKey? ==> exists k | k in values :: !ValidAgentKey(k)
    ensures r.Err? && r.error.DuplicateRequiredKey? ==>
        exists i, j | 0 <= i < j < |values| :: Trim(values[i]) == Trim(values[j]) == r.error.key
  {
    var normalized := [];
    for i := 0 to |values|
      invariant normalized == TrimAll(values[..i])
      invariant forall j | 0 <= j < i :: ValidAgentKey(values[j])
      invariant DistinctRequiredKeys(values[..i])
    {
      if !ValidAgentKey(values[i]) {
        assert values[i] in values;
        return Err(BadAgentKey);
      }
      var value := Trim(values[i]);
      if value in normalized {
        var j :| 0 <= j < i && normalized[j] == value;
        assert Trim(values[j]) == Trim(values[i]) == value;
        return Err(DuplicateRequiredKey(value));
      }
      normalized := normalized + [value];
      assert forall j | 0 <= j < i :: normalized[j] == Trim(values[j]);
    }
    assert values[..|values|] == values;
    return Ok(normalized);
  }

  /** `validate_request`: every check but the contents of the task's own capability list. */
  method ValidateRequest(r: Request) returns (e: Option<PolicyError>)
    ensures e.Some? ==> Blames(r, e.value)
    ensures e.Some? ==> !Valid(r)
    ensures e.None? && ValidCapabilities(r.task.requiredCapabilities) ==> Valid(r)
  {
    hide Trim, ValidText, Utf8Len, ValidCandidate, ValidAgentKey;
    if r.providers == [] {
      return Some(NoProviders);
    }
    if |r.providers| > MAX_PROVIDER_CANDIDATES {
      return Some(TooManyProviders);
    }
    if |r.task.requiredAgentKeys| > MAX_REQUIRED_PROVIDER_KEYS {
      return Some(TooManyRequiredKeys);
    }
    if |r.task.requiredCapabilities| > MAX_CAPABILITIES {
      return Some(TooManyCapabilities);
    }
    var required := NormalizeAgentKeys(r.task.requiredAgentKeys);
    if required.Err? {
      return Some(required.error);
    }
    if r.task.requiredReviewer.Some? && !ValidAgentKey(r.task.requiredReviewer.value) {
      return Some(BadAgentKey);
    }
    var keys;
    e, keys := ValidateProviders(r);
    if e.Some? {
      return;
    }
    for i := 0 to |required.value|
      invariant forall j | 0 <= j < i :: required.value[j] in keys
    {
      if required.value[i] !in keys {
        return Some(RequiredAbsent(required.value[i]));
      }
    }
    forall k | k in r.task.requiredAgentKeys
      ensures Offered(r.providers, Trim(k))
    {
      var j :| 0 <= j < |r.task.requiredAgentKeys| && r.task.requiredAgentKeys[j] == k;
      assert required.value[j] in keys;
    }
    if r.task.requiredReviewer.Some? && Trim(r.task.requiredReviewer.value) !in keys {
      return Some(ReviewerAbsent(Trim(r.task.requiredReviewer.value)));
    }
    return None;
  }

  /** The candidates, one by one; the keys they offer when all are accepted. */
  method ValidateProviders(r: Request) returns (e: Option<PolicyError>, keys: set<string>)
    ensures e.Some? ==> Blames(r, e.value) && !Valid(r)
    ensures e.None? ==> DistinctProviderKeys(r.providers) && forall c | c in r.providers :: ValidCandidate(c)
    ensures e.None? ==> forall k :: k in keys <==> Offered(r.providers, k)
  {
    hide Trim, ValidCandidate, Blames, Valid;
    keys := {};
    for i := 0 to |r.providers|
      invariant forall c | c in r.providers[..i] :: ValidCandidate(c)
      invariant DistinctProviderKeys(r.providers[..i])
      invariant forall k :: k in keys <==> Offered(r.providers[..i], k)
    {
      var c := r.providers[i];
      e := ValidateCandidate(r, c, keys, i);
      if e.Some? {
        return;
      }
      assert r.providers[..i + 1] == r.providers[..i] + [c];
      OfferOne(r.providers[..i], c);
      keys := keys + {c.Key()};
    }
    assert r.providers[..|r.providers|] == r.providers;
    e := None;
  }

  lemma OfferOne(providers: seq<Candidate>, c: Candidate)
    ensures forall k :: Offered(providers + [c], k) <==> Offered(providers, k) || k == c.Key()
    ensures DistinctProviderKeys(providers) && !Offered(providers, c.Key()) ==> DistinctProviderKeys(providers + [c])
  {
    hide Trim;
    forall k
      ensures Offered(providers + [c], k) <==> Offered(providers, k) || k == c.Key()
    {
      assert c in providers + [c];
    }
  }

  /** The per-candidate checks, after the candidates before position `i` were accepted. */
  method ValidateCandidate(r: Request, c: Candidate, keys: set<string>, i: nat) returns (e: Option<PolicyError>)
    requires i < |r.providers| && c == r.providers[i]
    requires forall k :: k in keys <==> Offered(r.providers[..i], k)
    ensures e.None? <==> ValidCandidate(c) && !Offered(r.providers[..i], c.Key())
    ensures e.Some? ==> Blames(r, e.value) && !Valid(r)
  {
    assert c in r.providers;
    if !ValidAgentKey(c.agentKey) {
      return Some(BadAgentKey);
    }
    if c.Key() in keys {
      var earlier :| earlier in r.providers[..i] && earlier.Key() == c.Key();
      var j :| 0 <= j < i && r.providers[j] == earlier;
      assert r.providers[j].Key() == r.providers[i].Key() == c.Key();
      return Some(DuplicateProviderKey(c.Key()));
    }
    if !ValidText(Trim(c.model), MAX_MODEL_BYTES) {
      return Some(BadModel);
    }
    if c.quality > 10_000 || c.health > 10_000 || c.errorRate > 10_000 {
      return Some(ScoreOutOfRange(c.Key()));
    }
    var capabilities := NormalizeCapabilities(c.capabilities);
    if capabilities.None? {
      return Some(BadCapabilities);
    }
    return None;
  }

  // ---- candidates ----------------------------------------------------------------------------

  /** Splits the candidates into the eligible and the excluded, in request order. */
  method Partition(task: Task, providers: seq<Candidate>) returns (eligible: seq<Candidate>, excluded: seq<Exclusion>)
    ensures eligible == Eligible(task, providers)
    ensures excluded == Exclusions(task, providers)
  {
    var required := Capabilities(task.requiredCapabilities);
    eligible, excluded := [], [];
    for i := 0 to |providers|
      invariant eligible == Eligible(task, providers[..i])
      invariant excluded == Exclusions(task, providers[..i])
    {
      hide Capabilities, ExclusionOf, Trim;
      var c := providers[i];
      assert providers[..i + 1] == providers[..i] + [c];
      CollectConcat(IfEligible(required, task.sensitivity), providers[..i], [c]);
      CollectConcat(IfExcluded(required, task.sensitivity), providers[..i], [c]);
      match ExclusionOf(c, required, task.sensitivity)
      case Some(reason) => excluded := excluded + [Exclusion(c.Key(), reason)];
      case None => eligible := eligible + [c];
    }
    assert providers[..|providers|] == providers;
  }

  lemma {:induction false} FindAllAppend(a: seq<string>, b: seq<string>, ranked: seq<Candidate>)
    ensures FindAll(a + b, ranked) == FindAll(a, ranked) + FindAll(b, ranked)
  {
    if a == [] {
      assert a + b == b;
    } else {
      assert (a + b)[1..] == a[1..] + b;
      FindAllAppend(a[1..], b, ranked);
    }
  }

  lemma {:induction false} OptionalAppend(a: seq<Candidate>, b: seq<Candidate>, required: seq<string>)
    ensures Optional(a + b, required) == Optional(a, required) + Optional(b, required)
  {
    if a == [] {
      assert a + b == b;
    } else {
      assert (a + b)[1..] == a[1..] + b;
      OptionalAppend(a[1..], b, required);
    }
  }

  /** Filling stops with exactly the best optional candidates that fit. */
  lemma FillStops(found: seq<Candidate>, ranked: seq<Candidate>, i: nat, required: seq<string>, desired: nat)
    requires i <= |ranked|
    requires |found| + |Optional(ranked[..i], required)| <= Max(desired, |found|)
    requires i == |ranked| || |found| + |Optional(ranked[..i], required)| >= desired
    ensures var optional := Optional(ranked, required);
      Optional(ranked[..i], required) == optional[..Min(|optional|, Max(desired - |found|, 0))]
  {
    assert ranked == ranked[..i] + ranked[i..];
    OptionalAppend(ranked[..i], ranked[i..], required);
    if i == |ranked| {
      assert ranked[..i] == ranked;
    }
  }

  /** Picks the required candidates, fills up with the best optional ones, and moves the reviewer last. */
  method Select(f: Frame, ranked: seq<Candidate>, desired: nat) returns (selected: seq<Candidate>)
    ensures selected == Picked(f, ranked, desired)
  {
    hide FindAll, Optional, ReviewerLast;
    selected := PickRequired(f.required, ranked);
    selected := Fill(selected, ranked, f.required, desired);
    selected := MoveReviewerLast(selected, f.reviewer);
  }

  method PickRequired(required: seq<string>, ranked: seq<Candidate>) returns (selected: seq<Candidate>)
    ensures selected == FindAll(required, ranked)
  {
    hide Candidate.Key, Trim;
    selected := [];
    for i := 0 to |required|
      invariant selected == FindAll(required[..i], ranked)
    {
      assert required[..i + 1] == required[..i] + [required[i]];
      FindAllAppend(required[..i], [required[i]], ranked);
      var found := Find(ranked, required[i]);
      if found.Some? {
        selected := selected + [found.value];
      }
    }
    assert required[..|required|] == required;
  }

  method MoveReviewerLast(selected: seq<Candidate>, reviewer: Option<string>) returns (moved: seq<Candidate>)
    ensures moved == ReviewerLast(selected, reviewer)
  {
    hide Candidate.Key, Trim;
    moved := selected;
    if reviewer.Some? {
      var index := IndexOf(selected, reviewer.value);
      if index < |selected| {
        moved := selected[..index] + selected[index + 1..];
        moved := moved + [selected[index]];
      }
    }
  }

  method Fill(found: seq<Candidate>, ranked: seq<Candidate>, required: seq<string>, desired: nat)
    returns (selected: seq<Candidate>)
    ensures var optional := Optional(ranked, required);
      selected == found + optional[..Min(|optional|, Max(desired - |found|, 0))]
  {
    hide Candidate.Key, Trim;
    selected := found;
    var i := 0;
    while i < |ranked| && |selected| < desired
      invariant 0 <= i <= |ranked|
      invariant selected == found + Optional(ranked[..i], required)
      invariant |selected| <= Max(desired, |found|)
    {
      assert ranked[..i + 1] == ranked[..i] + [ranked[i]];
      OptionalAppend(ranked[..i], [ranked[i]], required);
      if ranked[i].Key() !in required {
        selected := selected + [ranked[i]];
      }
      i := i + 1;
    }
    FillStops(found, ranked, i, required, desired);
  }

  /** Drops the lowest-ranked removable candidate while the estimate is over the ceiling. */
  method ReduceCost(f: Frame, picked: seq<Candidate>, minimum: nat) returns (selected: seq<Candidate>, reduced: bool)
    ensures selected == Kept(f, picked, minimum)
    ensures reduced <==> |selected| < |picked|
  {
    hide Removable, SaturatedCost;
    selected, reduced := picked, false;
    while SaturatedCost(selected) > f.budget.maxCost && |selected| > minimum && f.behavior == ReduceProviderCount
      invariant Kept(f, selected, minimum) == Kept(f, picked, minimum)
      invariant |selected| <= |picked| && (reduced <==> |selected| < |picked|)
      decreases |selected|
    {
      var n := LastRemovable(f, selected);
      if n == 0 {
        break;
      }
      selected := selected[..n - 1] + selected[n..];
      reduced := true;
    }
  }

  // ---- the whole procedure ---------------------------------------------------------------------

  /** `evaluate`: errors exactly on invalid requests, and otherwise returns the decision. */
  method Evaluate(request: Request) returns (result: Result<Decision, PolicyError>)
    ensures result.Ok? <==> Valid(request)
    ensures result.Ok? ==> result.value == Decide(request)
    ensures result.Err? ==> Blames(request, result.error)
  {
    var invalid := ValidateRequest(request);
    if invalid.Some? {
      return Err(invalid.value);
    }
    var capabilities := NormalizeCapabilities(request.task.requiredCapabilities);
    if capabilities.None? {
      return Err(BadCapabilities);
    }
    var decision := EvaluateValid(request);
    return Ok(decision);
  }

  method EvaluateValid(request: Request) returns (d: Decision)
    requires Valid(request)
    ensures d == Decide(request)
  {
    hide Valid, FrameOf, FrameReasons, SummaryOf, EstimatesOf, Roles, Picked, Kept, SaturatedCost, Missing, Eligible,
      Exclusions;
    var task := request.task;
    var f := FrameOf(task);
    var reasons := FrameReasons(task, f);
    var candidates, excluded := Partition(task, request.providers);
    var eligible := Sort(RankKey, candidates);

    var mode, protocol, target, approval := f.mode, f.protocol, f.target, f.approval;
    var degradation: Option<Degradation> := None;
    var missing := Missing(f.required, eligible);
    if missing != [] {
      var trigger := RequiredProvidersMissing(missing);
      reasons := reasons + [Shortage(trigger)];
      return Refusal(
          task, f, if f.behavior == FailClosed then Deny else Queue, mode, protocol, target, approval,
          Some(Degradation(f.behavior, trigger, mode, None, protocol, None, approval)),
          reasons, Blocked(trigger), |eligible|, missing, excluded);
    }

    var maxSelectable := Min(f.budget.maxProviders, |eligible|);
    var minimum := Max(MinimumCount(mode), |f.required|);
    var desired := Min(Max(DesiredCount(mode, maxSelectable), |f.required|), maxSelectable);
    ghost var p := Resolve(f, maxSelectable);
    if desired < minimum {
      var trigger := ProviderShortage(mode, minimum, desired);
      var shortage := Degradation(f.behavior, trigger, mode, None, protocol, None, approval);
      match f.behavior {
        case FailClosed =>
          return Refusal(
              task, f, Deny, mode, protocol, target, approval, Some(shortage), reasons, Blocked(trigger),
              |eligible|, [], excluded);
        case QueueUntilAvailable =>
          return Refusal(
              task, f, Queue, mode, protocol, target, approval, Some(shortage), reasons, Blocked(trigger),
              |eligible|, [], excluded);
        case FallbackToSingle =>
          if maxSelectable == 0 {
            return Refusal(
                task, f, Deny, mode, protocol, target, true, None, reasons, NoFallbackProvider,
                |eligible|, [], excluded);
          }
          mode, protocol, target, approval := Single, Direct, StandardWorkflow, true;
          reasons := reasons + [FellBackToSingle];
        case ReduceProviderCount =>
          var feasible := HighestFeasibleMode(maxSelectable);
          if feasible.None? {
            return Refusal(
                task, f, Deny, mode, protocol, target, approval, None, reasons, NoEligibleProvider,
                |eligible|, [], excluded);
          }
          mode := if ModeRank(feasible.value) > ModeRank(mode) then mode else feasible.value;
          protocol := DefaultProtocol(mode);
          target := ExecutionTarget(protocol);
          reasons := reasons + [ReducedMode(f.mode, mode)];
      }
      degradation := Some(shortage.(toMode := Some(mode), toProtocol := Some(protocol), approvalRequired := approval));
      minimum := Max(MinimumCount(mode), |f.required|);
      desired := Min(Max(DesiredCount(mode, maxSelectable), |f.required|), maxSelectable);
    }
    assert p == Proceed(mode, protocol, target, approval, degradation, p.notes);
    assert reasons == FrameReasons(task, f) + p.notes;
    d := Finish(task, f, eligible, excluded, mode, protocol, target, approval, degradation, reasons, minimum, desired);
  }

  /** Everything after the mode is settled: selection, cost reduction, the ceilings and the answer. */
  method Finish(
    task: Task, f: Frame, eligible: seq<Candidate>, excluded: seq<Exclusion>, mode: Mode,
    protocol: Protocol, target: Target, approval: bool, degradation: Option<Degradation>, reasons: seq<Reason>,
    minimum: nat, desired: nat) returns (d: Decision)
    requires minimum == Floor(mode, |f.required|)
    requires desired == Goal(mode, Min(f.budget.maxProviders, |eligible|), |f.required|)
    ensures d == Staff(task, f, eligible, excluded, mode, protocol, target, approval, degradation, reasons)
  {
    hide Refusal, Settle, SummaryOf, EstimatesOf, Roles, Picked, Kept, SaturatedCost, Floor, Goal;
    if desired < minimum {
      return Refusal(
          task, f, Deny, mode, protocol, target, approval, degradation, reasons, InfeasibleAfterDegradation,
          |eligible|, [], excluded);
    }
    var picked := Select(f, eligible, desired);
    var selected, costReduced := ReduceCost(f, picked, minimum);
    d := Answer(
      task, f, |eligible|, excluded, mode, protocol, target, approval, degradation,
      if costReduced then reasons + [CostReduced] else reasons, selected, minimum);
  }

  /** The hard cost and wall-clock ceilings, then the answer. */
  method Answer(
    task: Task, f: Frame, eligible: nat, excluded: seq<Exclusion>, mode: Mode, protocol: Protocol, target: Target,
    approval: bool, degradation: Option<Degradation>, reasons: seq<Reason>, selected: seq<Candidate>, minimum: nat)
    returns (d: Decision)
    ensures d == Settle(
        task, f, eligible, excluded, mode, protocol, target, approval, degradation, reasons, selected, minimum)
  {
    hide Refusal, SummaryOf, EstimatesOf, Roles, SaturatedCost;
    if |selected| < minimum || SaturatedCost(selected) > f.budget.maxCost {
      return Refusal(
          task, f, Deny, mode, protocol, target, approval, degradation, reasons, CostCeiling,
          eligible, [], excluded);
    }
    if task.expectedDurationMs > 0 && task.expectedDurationMs > f.budget.maxWallClockMs {
      return Refusal(
          task, f, Deny, mode, protocol, target, approval, degradation, reasons,
          DurationCeiling(task.expectedDurationMs, f.budget.maxWallClockMs), eligible, [], excluded);
    }
    return Decision(
        true, if approval then RequireHumanApproval else Execute, mode, protocol, target,
        Roles(mode, selected), excluded, SummaryOf(f, protocol, mode, eligible, |excluded|, []),
        EstimatesOf(task, mode, selected, f.budget), f.budget, approval, task.repositoryWrite, f.behavior,
        degradation, reasons + [ProtocolExplained(protocol), RankedDeterministically, SelectedCount(|selected|)], None);
  }
}
