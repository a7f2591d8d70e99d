/** Admissions: one record per workflow, a budget, usage accounting and terminal states. */
module Admission {
  import opened Prelude
  import opened WorkflowModes
  import opened Text
  import opened PolicyTypes
  import opened PolicyRules
  import opened PolicyDecision
  import opened PolicyTheorems
  import opened PolicyMeaning

  const MAX_ACTOR_BYTES := 120
  const MAX_REASON_BYTES := 2048

  datatype Status = Active | Exhausted | Completed | Cancelled

  datatype Usage = Usage(
    inputTokens: U64, outputTokens: U64, cost: U64, retries: U64, calls: U64, elapsedMs: U64, peakConcurrency: U8)

  datatype Delta = Delta(
    inputTokens: U64, outputTokens: U64, cost: U64, retries: U64, calls: U64, elapsedMs: U64, concurrency: U8)

  const UNUSED := Usage(0, 0, 0, 0, 0, 0, 0)

  datatype Record = Record(
    requestedBy: string, approvedBy: Option<string>, overrideReason: Option<string>, mode: Mode, selected: set<string>,
    budget: Budget, requireApproval: bool, status: Status, usage: Usage, terminalReason: Option<string>,
    lastRejected: Option<Delta>)

  datatype Failure =
    | AdmissionRequired
    | Terminal(status: Status)
    | BadActor
    | BadReason
    | NotSelected
    | NotAuthorized
    | ReporterMismatch
    | BudgetExhausted(reason: string)
    | PersistenceFailed
    | PlanMismatch
    | InvalidRequest
    | PolicyDenied
    | SpecializedExecutorRequired
    | ModeEscalated
    | AssignmentMismatch
    | ApprovalRequired

  // ---- accounting ------------------------------------------------------------------------------

  function CheckedAdd(a: U64, b: U64): Option<U64> { if a + b <= U64_MAX then Some(a + b) else None }

  /** `attempted_totals`: the new totals, unless a counter would overflow. */
  function AttemptedTotals(u: Usage, d: Delta): Option<Usage> {
    var input, output, cost := CheckedAdd(u.inputTokens, d.inputTokens), CheckedAdd(u.outputTokens, d.outputTokens),
      CheckedAdd(u.cost, d.cost);
    var retries, calls, elapsed := CheckedAdd(u.retries, d.retries), CheckedAdd(u.calls, d.calls),
      CheckedAdd(u.elapsedMs, d.elapsedMs);
    if input.Some? && output.Some? && cost.Some? && retries.Some? && calls.Some? && elapsed.Some? then
      Some(Usage(
        input.value, output.value, cost.value, retries.value, calls.value, elapsed.value,
        Max(u.peakConcurrency, d.concurrency)))
    else None
  }

  function MaxCalls(b: Budget): nat { b.maxProviders * b.maxRounds * (b.maxRetries + 1) }

  /** `budget_violation`: the first limit the totals exceed. */
  function BudgetViolation(b: Budget, u: Usage): Option<string> {
    if u.inputTokens > b.maxInputTokens then Some("input token budget exhausted")
    else if u.outputTokens > b.maxOutputTokens then Some("output token budget exhausted")
    else if u.cost > b.maxCost then Some("cost budget exhausted")
    else if u.retries > b.maxRetries then Some("retry budget exhausted")
    else if u.peakConcurrency > b.maxConcurrency then Some("concurrency budget exhausted")
    else if u.elapsedMs > b.maxWallClockMs then Some("wall-clock budget exhausted")
    else if u.calls > MaxCalls(b) then Some("provider call budget exhausted")
    else None
  }

  /** The totals respect every limit of the budget. */
  predicate Affords(b: Budget, u: Usage) {
    && u.inputTokens <= b.maxInputTokens && u.outputTokens <= b.maxOutputTokens && u.cost <= b.maxCost
    && u.retries <= b.maxRetries && u.peakConcurrency <= b.maxConcurrency && u.elapsedMs <= b.maxWallClockMs
    && u.calls <= MaxCalls(b)
  }

  predicate ValidActor(value: string) {
    Trim(value) != "" && Utf8Len(Trim(value)) <= MAX_ACTOR_BYTES && Printable(Trim(value))
  }

  predicate ValidReason(value: string) {
    Trim(value) != "" && Utf8Len(Trim(value)) <= MAX_REASON_BYTES && Printable(Trim(value))
  }

  // ---- creation -----------------------------------------------------------------------------------

  /** What an admission needs of a workflow plan. */
  datatype AdmissionPlan = AdmissionPlan(
    mode: Mode, agents: set<string>, leaseRequired: bool, capabilities: seq<string>)

  datatype AdmitRequest = AdmitRequest(
    requestedBy: string, approvedBy: Option<string>, overrideReason: Option<string>, policy: Request)

  function SelectedKeys(d: Decision): set<string> { set s | s in d.selected :: s.agentKey }

  /** `validate_request_matches_plan`. */
  predicate MatchesPlan(plan: AdmissionPlan, r: Request) {
    && r.task.requestedMode == Some(plan.mode)
    && r.task.repositoryWrite == plan.leaseRequired
    && Capabilities(plan.capabilities) == Capabilities(r.task.requiredCapabilities)
    && plan.agents == set c | c in r.providers :: c.agentKey
  }

  /** The record `create_admission` stores, or why it does not. */
  function Admitted(plan: AdmissionPlan, q: AdmitRequest): Result<Record, Failure> {
    if !MatchesPlan(plan, q.policy) then Err(PlanMismatch)
    else if !Valid(q.policy) then Err(InvalidRequest)
    else
      var d := Decide(q.policy);
      if !d.allowed then Err(PolicyDenied)
      else if d.target != StandardWorkflow then Err(SpecializedExecutorRequired)
      else if d.mode != plan.mode then Err(ModeEscalated)
      else if plan.agents != SelectedKeys(d) then Err(AssignmentMismatch)
      else if !ValidActor(q.requestedBy) then Err(BadActor)
      else if q.approvedBy.Some? && !ValidActor(q.approvedBy.value) then Err(BadActor)
      else if d.requireApproval && q.approvedBy.None? then Err(ApprovalRequired)
      else if q.overrideReason.Some? && !ValidReason(q.overrideReason.value) then Err(BadReason)
      else
        Ok(Record(
          Trim(q.requestedBy),
          if q.approvedBy.Some? then Some(Trim(q.approvedBy.value)) else None,
          if q.overrideReason.Some? then Some(Trim(q.overrideReason.value)) else None,
          d.mode, SelectedKeys(d), d.budget, d.requireApproval, Active, UNUSED, None, None))
  }

  // ---- the locked operations on the record ------------------------------------------------------------

  /** A stored record and the answer to the caller. */
  datatype Outcome = Outcome(store: Option<Record>, reply: Result<Record, Failure>)

  /** Writing the record back may fail, and then nothing changes. */
  function Persist(before: Option<Record>, after: Record, persisted: bool, reply: Result<Record, Failure>): Outcome {
    if persisted then Outcome(Some(after), reply) else Outcome(before, Err(PersistenceFailed))
  }

  function Created(store: Option<Record>, plan: AdmissionPlan, q: AdmitRequest, persisted: bool): Outcome {
    if store.Some? then Outcome(store, Ok(store.value))
    else
      match Admitted(plan, q)
      case Err(e) => Outcome(store, Err(e))
      case Ok(r) => Persist(store, r, persisted, Ok(r))
  }

  function UsageRecorded(store: Option<Record>, actor: string, d: Delta, persisted: bool): Outcome {
    if store.None? then Outcome(store, Err(AdmissionRequired))
    else
      var r := store.value;
      if r.status != Active then Outcome(store, Err(Terminal(r.status)))
      else if !ValidActor(actor) then Outcome(store, Err(BadActor))
      else if Trim(actor) !in r.selected then Outcome(store, Err(NotSelected))
      else
        var attempted := AttemptedTotals(r.usage, d);
        var violation :=
          if attempted.None? then Some("usage counter overflow") else BudgetViolation(r.budget, attempted.value);
        if violation.Some? then
          var exhausted := r.(status := Exhausted, terminalReason := violation, lastRejected := Some(d));
          Persist(store, exhausted, persisted, Err(BudgetExhausted(violation.value)))
        else
          var updated := r.(usage := attempted.value, lastRejected := None);
          Persist(store, updated, persisted, Ok(updated))
  }

  function Ended(
    store: Option<Record>, actor: string, status: Status, reason: Option<string>, persisted: bool): Outcome
  {
    if store.None? then Outcome(store, Err(AdmissionRequired))
    else
      var r := store.value;
      if r.status != Active then Outcome(store, Err(Terminal(r.status)))
      else if !ValidActor(actor) then Outcome(store, Err(BadActor))
      else if Trim(actor) != r.requestedBy && Trim(actor) !in r.selected then Outcome(store, Err(NotAuthorized))
      else if reason.Some? && !ValidReason(reason.value) then Outcome(store, Err(BadReason))
      else
        var ended := r.(status := status, terminalReason := if reason.Some? then Some(Trim(reason.value)) else None);
        Persist(store, ended, persisted, Ok(ended))
  }

  /** The admission endpoints over the stored record, updated in place under one lock. */
  class AdmissionStore {
    var record: Option<Record>

    constructor ()
      ensures record == None
    {
      record := None;
    }

    /** Stores `after` if the write succeeds. */
    method Save(after: Record, persisted: bool) returns (saved: bool)
      modifies this
      ensures saved == persisted
      ensures record == if persisted then Some(after) else old(record)
    {
      if persisted {
        record := Some(after);
      }
      return persisted;
    }

    method CreateAdmission(plan: AdmissionPlan, q: AdmitRequest, persisted: bool)
      returns (reply: Result<Record, Failure>, created: bool)
      modifies this
      ensures Outcome(record, reply) == Created(old(record), plan, q, persisted)
      ensures created <==> old(record).None? && record.Some?
    {
      if record.Some? {
        return Ok(record.value), false;
      }
      var admitted := Admitted(plan, q);
      if admitted.Err? {
        return Err(admitted.error), false;
      }
      var saved := Save(admitted.value, persisted);
      if !saved {
        return Err(PersistenceFailed), false;
      }
      return Ok(admitted.value), true;
    }

    /** Terminally exhausts the admission, keeping its usage. */
    method Exhaust(r: Record, d: Delta, reason: string, persisted: bool) returns (failure: Failure)
      modifies this
      ensures Outcome(record, Err(failure)) == Persist(
          old(record), r.(status := Exhausted, terminalReason := Some(reason), lastRejected := Some(d)), persisted,
          Err(BudgetExhausted(reason)))
    {
      var saved := Save(r.(status := Exhausted, terminalReason := Some(reason), lastRejected := Some(d)), persisted);
      return if saved then BudgetExhausted(reason) else PersistenceFailed;
    }

    method RecordUsage(actor: string, d: Delta, persisted: bool) returns (reply: Result<Record, Failure>)
      modifies this
      ensures Outcome(record, reply) == UsageRecorded(old(record), actor, d, persisted)
    {
      hide Trim, Utf8Len, BudgetViolation;
      if record.None? {
        return Err(AdmissionRequired);
      }
      var r := record.value;
      if r.status != Active {
        return Err(Terminal(r.status));
      }
      if !ValidActor(actor) {
        return Err(BadActor);
      }
      if Trim(actor) !in r.selected {
        return Err(NotSelected);
      }
      var attempted := AttemptedTotals(r.usage, d);
      if attempted.None? {
        var failure := Exhaust(r, d, "usage counter overflow", persisted);
        return Err(failure);
      }
      var violation := BudgetViolation(r.budget, attempted.value);
      if violation.Some? {
        var failure := Exhaust(r, d, violation.value, persisted);
        return Err(failure);
      }
      r := r.(usage := attempted.value, lastRejected := None);
      var saved := Save(r, persisted);
      return if saved then Ok(r) else Err(PersistenceFailed);
    }

    method Transition(actor: string, status: Status, reason: Option<string>, persisted: bool)
      returns (reply: Result<Record, Failure>)
      modifies this
      ensures Outcome(record, reply) == Ended(old(record), actor, status, reason, persisted)
    {
      hide Trim, Utf8Len;
      if record.None? {
        return Err(AdmissionRequired);
      }
      var r := record.value;
      if r.status != Active {
        return Err(Terminal(r.status));
      }
      if !ValidActor(actor) {
        return Err(BadActor);
      }
      if Trim(actor) != r.requestedBy && Trim(actor) !in r.selected {
        return Err(NotAuthorized);
      }
      if reason.Some? && !ValidReason(reason.value) {
        return Err(BadReason);
      }
      r := r.(status := status, terminalReason := if reason.Some? then Some(Trim(reason.value)) else None);
      var saved := Save(r, persisted);
      return if saved then Ok(r) else Err(PersistenceFailed);
    }
  }

  // ---- runs --------------------------------------------------------------------------------------------

  /** A usage report whose owner check passed, outside the lock. */
  datatype Report = Report(reporter: string, provider: string, delta: Delta)

  /** The record, the reports between their two steps, and the reports that were accepted. */
  datatype World = World(store: Option<Record>, reports: map<nat, Report>, accepted: seq<Report>)

  datatype Action =
    | Create(plan: AdmissionPlan, q: AdmitRequest, persisted: bool)
    | CheckOwner(id: nat, report: Report)
    | RecordReport(id: nat, persisted: bool)
    | End(actor: string, status: Status, reason: Option<string>, persisted: bool)

  ghost predicate Step(w: World, action: Action, x: World) {
    match action
    case Create(plan, q, persisted) => x == w.(store := Created(w.store, plan, q, persisted).store)
    case CheckOwner(id, report) =>
      && id !in w.reports && w.store.Some? && w.store.value.requestedBy == Trim(report.reporter)
      && x == w.(reports := w.reports[id := report])
    case RecordReport(id, persisted) =>
      && id in w.reports
      && var outcome := UsageRecorded(w.store, w.reports[id].provider, w.reports[id].delta, persisted);
      x == World(
        outcome.store, w.reports - {id},
        if outcome.reply.Ok? then w.accepted + [w.reports[id]] else w.accepted)
    case End(actor, status, reason, persisted) =>
      && status in {Status.Completed, Cancelled}
      && x == w.(store := Ended(w.store, actor, status, reason, persisted).store)
  }

  ghost predicate Run(ws: seq<World>, actions: seq<Action>) {
    && |ws| == |actions| + 1 && ws[0] == World(None, map[], [])
    && forall i | 0 <= i < |actions| :: Step(ws[i], actions[i], ws[i + 1])
  }

  /** Exact totals of a list of reports, with no machine bound. */
  datatype Totals = Totals(
    inputTokens: nat, outputTokens: nat, cost: nat, retries: nat, calls: nat, elapsedMs: nat, peak: nat)

  function Total(reports: seq<Report>): Totals {
    if reports == [] then Totals(0, 0, 0, 0, 0, 0, 0)
    else
      var t, d := Total(reports[..|reports| - 1]), reports[|reports| - 1].delta;
      Totals(
        t.inputTokens + d.inputTokens, t.outputTokens + d.outputTokens, t.cost + d.cost, t.retries + d.retries,
        t.calls + d.calls, t.elapsedMs + d.elapsedMs, Max(t.peak, d.concurrency))
  }

  function AsTotals(u: Usage): Totals {
    Totals(u.inputTokens, u.outputTokens, u.cost, u.retries, u.calls, u.elapsedMs, u.peakConcurrency)
  }

  ghost predicate Inv(w: World) {
    && (w.store.None? ==> w.accepted == [] && w.reports == map[])
    && (w.store.Some? ==>
          var r := w.store.value;
          && AsTotals(r.usage) == Total(w.accepted)
          && Affords(r.budget, r.usage)
          && (forall id | id in w.reports :: Trim(w.reports[id].reporter) == r.requestedBy)
          && (forall a | a in w.accepted :: Trim(a.reporter) == r.requestedBy && Trim(a.provider) in r.selected))
  }

  lemma TotalAppend(reports: seq<Report>, report: Report, u: Usage)
    requires AsTotals(u) == Total(reports) && AttemptedTotals(u, report.delta).Some?
    ensures AsTotals(AttemptedTotals(u, report.delta).value) == Total(reports + [report])
  {
    assert (reports + [report])[..|reports|] == reports;
  }

  lemma NoViolationMeansAffords(b: Budget, u: Usage)
    ensures BudgetViolation(b, u).None? <==> Affords(b, u)
  {
  }

  /** The parts of a record that nothing changes. */
  predicate SameTerms(a: Record, b: Record) {
    && a.requestedBy == b.requestedBy && a.approvedBy == b.approvedBy && a.overrideReason == b.overrideReason
    && a.mode == b.mode && a.selected == b.selected && a.budget == b.budget && a.requireApproval == b.requireApproval
  }

  /** A record, once there, keeps its terms, and once terminal it keeps everything. */
  ghost predicate Persistent(a: Option<Record>, b: Option<Record>) {
    a.Some? ==>
      && b.Some? && SameTerms(a.value, b.value)
      && (a.value.status != Active ==> b == a)
  }

  /** Totals are kept unless a counter would pass the 64-bit maximum; then each is a sum, and concurrency the peak. */
  lemma AttemptedMeans(u: Usage, d: Delta)
    ensures AttemptedTotals(u, d).Some? <==>
        && u.inputTokens + d.inputTokens < 0x1_0000_0000_0000_0000
        && u.outputTokens + d.outputTokens < 0x1_0000_0000_0000_0000
        && u.cost + d.cost < 0x1_0000_0000_0000_0000
        && u.retries + d.retries < 0x1_0000_0000_0000_0000
        && u.calls + d.calls < 0x1_0000_0000_0000_0000
        && u.elapsedMs + d.elapsedMs < 0x1_0000_0000_0000_0000
  {
  }

  /** A report is accepted exactly when its totals overflow nothing and exceed nothing; otherwise the usage stays. */
  lemma ReportOutcome(r: Record, actor: string, d: Delta, persisted: bool)
    ensures var o := UsageRecorded(Some(r), actor, d, persisted);
      var attempted := AttemptedTotals(r.usage, d);
      var fits := attempted.Some? && Affords(r.budget, attempted.value);
      var admissible := r.status == Active && ValidActor(actor) && Trim(actor) in r.selected;
      && o.store.Some? && SameTerms(r, o.store.value)
      && (o.reply.Ok? <==> admissible && fits && persisted)
      && (o.reply.Ok? ==> o.store == Some(r.(usage := attempted.value, lastRejected := None)))
      && (!o.reply.Ok? ==> o.store.value.usage == r.usage)
      && (o.store.value.status == Exhausted && r.status == Active <==> admissible && !fits && persisted)
      && (admissible && !fits && persisted ==>
            && o.store.value.terminalReason.Some?
            && o.store.value == r.(
                status := Exhausted, terminalReason := o.store.value.terminalReason, lastRejected := Some(d)))
      && (!admissible || !persisted ==> o.store == Some(r))
  {
    hide Trim, Utf8Len;
    var attempted := AttemptedTotals(r.usage, d);
    if attempted.Some? {
      NoViolationMeansAffords(r.budget, attempted.value);
    }
  }

  lemma RecordKeepsInv(w: World, id: nat, persisted: bool, x: World)
    requires Inv(w) && Step(w, RecordReport(id, persisted), x)
    ensures Inv(x) && Persistent(w.store, x.store) && w.accepted <= x.accepted
  {
    hide Trim, Utf8Len, BudgetViolation, MaxCalls;
    var report := w.reports[id];
    var r := w.store.value;
    ReportOutcome(r, report.provider, report.delta, persisted);
    TerminalStays(r, report.provider, report.delta, persisted);
    hide UsageRecorded, Total, Affords;
    if x.accepted != w.accepted {
      TotalAppend(w.accepted, report, r.usage);
    }
    assert forall a | a in x.accepted :: a in w.accepted || a == report;
  }

  lemma TerminalStays(r: Record, actor: string, d: Delta, persisted: bool)
    ensures r.status != Active ==> UsageRecorded(Some(r), actor, d, persisted).store == Some(r)
    ensures Affords(r.budget, r.usage) ==>
        var after := UsageRecorded(Some(r), actor, d, persisted).store.value; Affords(after.budget, after.usage)
  {
    hide Trim, Utf8Len;
    var attempted := AttemptedTotals(r.usage, d);
    if attempted.Some? {
      NoViolationMeansAffords(r.budget, attempted.value);
    }
  }

  lemma StepKeepsInv(w: World, action: Action, x: World)
    requires Inv(w) && Step(w, action, x)
    ensures Inv(x) && Persistent(w.store, x.store) && w.accepted <= x.accepted
  {
    hide Trim, Utf8Len, Admitted, UsageRecorded, Total, Affords;
    match action
    case RecordReport(id, persisted) => RecordKeepsInv(w, id, persisted, x);
    case Create(plan, q, persisted) => AdmittedStartsUnused(plan, q);
    case CheckOwner(id, report) =>
    case End(actor, status, reason, persisted) =>
  }

  lemma AdmittedStartsUnused(plan: AdmissionPlan, q: AdmitRequest)
    ensures Admitted(plan, q).Ok? ==>
        Admitted(plan, q).value.usage == UNUSED && Admitted(plan, q).value.status == Active
    ensures AsTotals(UNUSED) == Total([])
    ensures forall b: Budget :: Affords(b, UNUSED)
  {
    hide Valid, MatchesPlan, Decide, ValidActor, ValidReason;
  }

  lemma {:induction false} RunKeepsInv(ws: seq<World>, actions: seq<Action>, i: nat, j: nat)
    requires Run(ws, actions) && i <= j < |ws|
    ensures Inv(ws[j])
    ensures Persistent(ws[i].store, ws[j].store) && ws[i].accepted <= ws[j].accepted
  {
    hide Step;
    if i < j {
      RunKeepsInv(ws, actions, i, j - 1);
      StepKeepsInv(ws[j - 1], actions[j - 1], ws[j]);
    } else if j > 0 {
      RunKeepsInv(ws, actions, j - 1, j - 1);
      StepKeepsInv(ws[j - 1], actions[j - 1], ws[j]);
    }
  }

  // ---- the theorems ------------------------------------------------------------------------------------

  /**
   * In every interleaving the recorded usage is the exact total of the accepted reports, within
   * every limit; and each accepted report came from the owner, for a selected provider.
   */
  lemma UsageIsConserved(ws: seq<World>, actions: seq<Action>, i: nat)
    requires Run(ws, actions) && i < |ws| && ws[i].store.Some?
    ensures var r := ws[i].store.value;
      && AsTotals(r.usage) == Total(ws[i].accepted)
      && Affords(r.budget, r.usage)
      && (forall a | a in ws[i].accepted :: Trim(a.reporter) == r.requestedBy && Trim(a.provider) in r.selected)
  {
    RunKeepsInv(ws, actions, i, i);
  }

  /** Owner, approver, mode, providers and budget never change, and a terminal record never changes at all. */
  lemma TermsAreFinal(ws: seq<World>, actions: seq<Action>, i: nat, j: nat)
    requires Run(ws, actions) && i <= j < |ws| && ws[i].store.Some?
    ensures ws[j].store.Some? && SameTerms(ws[i].store.value, ws[j].store.value)
    ensures ws[i].store.value.status != Active ==> ws[j].store == ws[i].store && ws[j].accepted == ws[i].accepted
  {
    RunKeepsInv(ws, actions, i, j);
    if ws[i].store.value.status != Active {
      TerminalAcceptsNothing(ws, actions, i, j);
    }
  }

  lemma {:induction false} TerminalAcceptsNothing(ws: seq<World>, actions: seq<Action>, i: nat, j: nat)
    requires Run(ws, actions) && i <= j < |ws| && ws[i].store.Some? && ws[i].store.value.status != Active
    ensures ws[j].accepted == ws[i].accepted
  {
    if i < j {
      TerminalAcceptsNothing(ws, actions, i, j - 1);
      RunKeepsInv(ws, actions, i, j - 1);
      hide Total, AttemptedTotals, Affords, Admitted;
      var w, action := ws[j - 1], actions[j - 1];
      assert Step(w, action, ws[j]);
      if action.RecordReport? {
        ReportOutcome(w.store.value, w.reports[action.id].provider, w.reports[action.id].delta, action.persisted);
      }
    }
  }

  /**
   * Over every run, whatever is spent stays within the profile of the risk the policy assigned:
   * an admission created from a request can never be charged more than that profile allows, and a
   * high-risk or restricted task never runs without a named approver.
   */
  lemma AdmittedWithinPolicy(
    ws: seq<World>, actions: seq<Action>, i: nat, j: nat, plan: AdmissionPlan, q: AdmitRequest)
    requires Run(ws, actions) && i < j < |ws|
    requires actions[i] == Create(plan, q, true)
    ensures ws[i].store.None? && Admitted(plan, q).Ok? ==> ws[j].store.Some? && WithinPolicy(ws[j], plan, q)
  {
    hide Admitted, FrameOf, Decide, Valid, BudgetProfile, Affords, Total, Within, SelectedKeys;
    assert Step(ws[i], actions[i], ws[i + 1]);
    RunKeepsInv(ws, actions, i + 1, j);
    if ws[i].store.None? && Admitted(plan, q).Ok? {
      AdmittedTerms(plan, q);
      var r := ws[j].store.value;
      AffordsMore(r.budget, BudgetProfile(FrameOf(q.policy.task).budgetRisk), r.usage);
    }
  }

  /** The record runs what the policy decided, within its budget and ceilings, and approved where it asks for that. */
  ghost predicate WithinPolicy(w: World, plan: AdmissionPlan, q: AdmitRequest)
    requires w.store.Some?
  {
    var r, f := w.store.value, FrameOf(q.policy.task);
    && Valid(q.policy) && Decide(q.policy).allowed && Decide(q.policy).target == StandardWorkflow
    && r.mode == plan.mode == Decide(q.policy).mode && r.selected == plan.agents == SelectedKeys(Decide(q.policy))
    && r.requestedBy == Trim(q.requestedBy)
    && r.budget == Decide(q.policy).budget && Affords(r.budget, r.usage)
    && Affords(BudgetProfile(f.budgetRisk), r.usage)
    && AsTotals(r.usage) == Total(w.accepted)
    && (Decide(q.policy).requireApproval || f.approval ==> r.approvedBy.Some?)
    && FitsPlan(plan, q.policy)
    && (plan.leaseRequired ==> r.approvedBy.Some? && r.mode != Single)
    && (SecurityPlan(plan) ==> r.approvedBy.Some? && r.mode == Consensus)
  }

  /** The request is about the plan: same mode, need of a lease and capabilities, and its agents as candidates. */
  ghost predicate FitsPlan(plan: AdmissionPlan, r: Request) {
    && r.task.requestedMode == Some(plan.mode)
    && (plan.leaseRequired <==> r.task.repositoryWrite)
    && (forall k | k in plan.capabilities ::
          exists own | own in r.task.requiredCapabilities :: Lower(Trim(own)) == Lower(Trim(k)))
    && (forall own | own in r.task.requiredCapabilities ::
          exists k | k in plan.capabilities :: Lower(Trim(own)) == Lower(Trim(k)))
    && (forall c | c in r.providers :: c.agentKey in plan.agents)
    && (forall a | a in plan.agents :: exists c | c in r.providers :: c.agentKey == a)
  }

  /** The plan asks for a security-sensitive capability. */
  ghost predicate SecurityPlan(plan: AdmissionPlan) {
    exists k | k in plan.capabilities ::
      Lower(Trim(k)) in {"security", "secrets", "authentication", "authorization", "cryptography"}
  }

  lemma MatchesMeansFits(plan: AdmissionPlan, r: Request)
    ensures MatchesPlan(plan, r) <==> FitsPlan(plan, r)
  {
    hide Lower, Trim;
    SameCapabilities(plan.capabilities, r.task.requiredCapabilities);
    var keys := set c | c in r.providers :: c.agentKey;
    assert forall c | c in r.providers :: c.agentKey in keys;
    if FitsPlan(plan, r) {
      assert plan.agents == keys;
    }
  }

  lemma SameCapabilities(a: seq<string>, b: seq<string>)
    ensures Capabilities(a) == Capabilities(b) <==>
        && (forall k | k in a :: exists own | own in b :: Lower(Trim(own)) == Lower(Trim(k)))
        && (forall own | own in b :: exists k | k in a :: Lower(Trim(own)) == Lower(Trim(k)))
  {
    hide Lower, Trim;
    var x, y := Capabilities(a), Capabilities(b);
    if x == y {
      forall k | k in a
        ensures exists own | own in b :: Lower(Trim(own)) == Lower(Trim(k))
      {
        assert Capability(k) in y;
      }
      forall own | own in b
        ensures exists k | k in a :: Lower(Trim(own)) == Lower(Trim(k))
      {
        assert Capability(own) in x;
      }
    }
  }

  /** What a creation needs beyond a request about the plan. */
  ghost predicate Admissible(plan: AdmissionPlan, q: AdmitRequest) {
    && FitsPlan(plan, q.policy) && Valid(q.policy)
    && Decide(q.policy).allowed && Decide(q.policy).target == StandardWorkflow && Decide(q.policy).mode == plan.mode
    && (forall s | s in Decide(q.policy).selected :: s.agentKey in plan.agents)
    && (forall a | a in plan.agents :: exists s | s in Decide(q.policy).selected :: s.agentKey == a)
    && PlainText(q.requestedBy, 120)
    && (q.approvedBy.Some? ==> PlainText(q.approvedBy.value, 120))
    && (Decide(q.policy).requireApproval ==> q.approvedBy.Some?)
    && (q.overrideReason.Some? ==> PlainText(q.overrideReason.value, 2048))
  }

  /** Between one and `limit` printable bytes, apart from outer white space. */
  predicate PlainText(value: string, limit: nat) {
    Trim(value) != "" && Utf8Len(Trim(value)) <= limit && Printable(Trim(value))
  }

  /** A creation without a record before it succeeds exactly when the request is admissible and the write persists. */
  lemma CreatedIff(plan: AdmissionPlan, q: AdmitRequest, persisted: bool)
    ensures var o := Created(None, plan, q, persisted);
      && (o.reply.Ok? <==> Admissible(plan, q) && persisted)
      && (o.reply.Ok? ==>
            && o.store == Some(o.reply.value)
            && var r := o.reply.value;
            && r.requestedBy == Trim(q.requestedBy) && r.status == Active && r.usage == UNUSED
            && (r.approvedBy == if q.approvedBy.Some? then Some(Trim(q.approvedBy.value)) else None)
            && (r.overrideReason == if q.overrideReason.Some? then Some(Trim(q.overrideReason.value)) else None)
            && r.mode == plan.mode && r.selected == plan.agents && r.budget == Decide(q.policy).budget
            && r.requireApproval == Decide(q.policy).requireApproval)
      && (o.reply.Err? ==> o.store == None)
  {
    hide Trim, Utf8Len, Printable, Decide, Valid, MatchesPlan, FitsPlan;
    MatchesMeansFits(plan, q.policy);
    if Valid(q.policy) {
      SelectedMeans(plan.agents, Decide(q.policy));
    }
  }

  lemma SelectedMeans(agents: set<string>, d: Decision)
    ensures agents == SelectedKeys(d) <==>
        && (forall s | s in d.selected :: s.agentKey in agents)
        && (forall a | a in agents :: exists s | s in d.selected :: s.agentKey == a)
  {
    var keys := SelectedKeys(d);
    assert forall s | s in d.selected :: s.agentKey in keys;
  }

  /**
   * An admission ends exactly when it is active, the actor owns it or is one of its providers, and the
   * write persists; then status and reason change and nothing else does. Otherwise nothing changes.
   */
  lemma EndedIff(r: Record, actor: string, status: Status, reason: Option<string>, persisted: bool)
    ensures var o := Ended(Some(r), actor, status, reason, persisted);
      && (o.reply.Ok? <==>
            && r.status == Active && PlainText(actor, 120)
            && (Trim(actor) == r.requestedBy || Trim(actor) in r.selected)
            && (reason.Some? ==> PlainText(reason.value, 2048)) && persisted)
      && (o.reply.Ok? ==>
            && o.store == Some(o.reply.value)
            && o.reply.value == r.(
                status := status, terminalReason := if reason.Some? then Some(Trim(reason.value)) else None))
      && (o.reply.Err? ==> o.store == Some(r))
      && (r.status != Active ==> o.reply == Err(Terminal(r.status)))
  {
    hide Trim, Utf8Len, Printable;
  }

  /** A record that is there already is returned unchanged, whatever is asked. */
  lemma CreationIsOnce(r: Record, plan: AdmissionPlan, q: AdmitRequest, persisted: bool)
    ensures Created(Some(r), plan, q, persisted) == Outcome(Some(r), Ok(r))
  {
  }

  lemma AdmittedTerms(plan: AdmissionPlan, q: AdmitRequest)
    ensures Admitted(plan, q).Ok? ==>
        var r, f := Admitted(plan, q).value, FrameOf(q.policy.task);
        && Valid(q.policy) && Decide(q.policy).allowed && Decide(q.policy).target == StandardWorkflow
        && r.mode == plan.mode == Decide(q.policy).mode && r.selected == plan.agents == SelectedKeys(Decide(q.policy))
        && r.requestedBy == Trim(q.requestedBy)
        && r.budget == Decide(q.policy).budget && Within(r.budget, BudgetProfile(f.budgetRisk))
        && (Decide(q.policy).requireApproval || f.approval ==> r.approvedBy.Some?)
        && FitsPlan(plan, q.policy)
        && (plan.leaseRequired ==> r.approvedBy.Some? && r.mode != Single)
        && (SecurityPlan(plan) ==> r.approvedBy.Some? && r.mode == Consensus)
  {
    hide Trim, Utf8Len, MatchesPlan, ValidActor, ValidReason, Decide, Valid, FrameOf, SelectedKeys, BudgetProfile,
      Within, FitsPlan, SecurityPlan;
    if Admitted(plan, q).Ok? {
      MatchesMeansFits(plan, q.policy);
      AllowedTerms(q.policy);
      GuardedPlan(plan, q.policy);
    }
  }

  /** A plan that writes the repository, or that is security-sensitive, is decided with approval and several agents. */
  lemma GuardedPlan(plan: AdmissionPlan, r: Request)
    requires Valid(r) && Decide(r).allowed && FitsPlan(plan, r)
    ensures plan.leaseRequired ==> FrameOf(r.task).approval && Decide(r).mode != Single
    ensures SecurityPlan(plan) ==> FrameOf(r.task).approval && Decide(r).mode == Consensus
  {
    hide Decide, FrameOf, Valid, EffectiveRisk, Lower, Trim;
    if SecurityPlan(plan) {
      assert NamesSecurity(r.task);
    }
    DegradationTheorem(r);
    ApprovalMeans(r.task);
    ModeMeans(r.task);
    EffectiveRiskMeans(r.task);
    if plan.leaseRequired {
      assert PolicyNeeds(r.task, Sequential);
      assert ModeRank(FrameOf(r.task).mode) >= ModeRank(Sequential);
    }
    if SecurityPlan(plan) {
      assert RiskReaches(r.task, High) && PolicyNeeds(r.task, Consensus);
      assert RiskRank(EffectiveRisk(r.task)) >= RiskRank(High);
      assert ModeRank(FrameOf(r.task).mode) >= ModeRank(Consensus);
    }
  }

  lemma AllowedTerms(r: Request)
    requires Valid(r)
    ensures Decide(r).allowed ==>
        && Within(Decide(r).budget, BudgetProfile(FrameOf(r.task).budgetRisk))
        && (FrameOf(r.task).approval ==> Decide(r).requireApproval)
  {
    var f, ranked, excluded := FrameOf(r.task), Ranked(r.task, r.providers), Exclusions(r.task, r.providers);
    ClampedBudgetBounds(r.task.requestedBudget, f.budgetRisk);
    assert f.budget == ClampBudget(r.task.requestedBudget, BudgetProfile(f.budgetRisk));
    FrameLaws(r.task);
    hide FrameOf, Ranked, Conclude, Resolve, Valid, Within;
    AllowedSelects(r.task, f, ranked, excluded);
    ConcludedDegradation(r.task, f, ranked, excluded);
    ResolveLaws(f, Min(f.budget.maxProviders, |ranked|));
  }

  lemma AffordsMore(a: Budget, b: Budget, u: Usage)
    requires Within(a, b) && Affords(a, u)
    ensures Affords(b, u)
  {
    ProductMonotone(a.maxProviders, b.maxProviders, a.maxRounds, b.maxRounds);
    ProductMonotone(
      a.maxProviders * a.maxRounds, b.maxProviders * b.maxRounds, a.maxRetries + 1, b.maxRetries + 1);
  }

  lemma ProductMonotone(a: nat, b: nat, c: nat, d: nat)
    requires a <= b && c <= d
    ensures a * c <= b * d
  {
    assert a * c <= b * c by { assert (b - a) * c >= 0; }
    assert b * c <= b * d by { assert b * (d - c) >= 0; }
  }
}
