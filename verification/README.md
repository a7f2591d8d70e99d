# Proofs about the agent bridge's state and coordination protocols

This project models the parts of the bridge whose correctness is hard to see from one function body,
and proves what they promise: the policy engine, the repository-path lease manager, the channel log
and its subscriptions, the workflow turn protocol, the blind competition, admission accounting, the
durable Slack event journal, TCP framing and the Postgres mirror.

Stateful code is a class whose methods are proved against functions or step relations on values.
The main theorems are about those functions, over every input, or about every run of the step
relations. A request that checks under one lock and writes under another is two steps, so that
every interleaving is covered.

| files | component |
|---|---|
| `Prelude`, `Text`, `Sequences`, `Tallies` | integers, strings, sorting, splitting and counting |
| `PolicyTypes`, `PolicyRules`, `PolicyDecision` | the policy's data, tables and decision as functions |
| `PolicySelection`, `PolicyTheorems`, `PolicyMeaning`, `PolicyAnswers`, `PolicyEngine` | its laws, its theorems, its rules told from the request, and `evaluate` as it runs |
| `Paths`, `Leases`, `LeaseTable` | canonical paths, the lease protocol, the lock manager |
| `ChannelLog`, `Channels`, `Posting`, `Subscription` | the retained window, one channel, posts in two halves, replay and live delivery |
| `SharedContext`, `WorkflowModes`, `WorkflowPlans`, `WorkflowProtocol` | reserved keys, modes, plans, the turn protocol |
| `BlindCompetition`, `Admission` | the blind competition, admission accounting |
| `Journal`, `Framing` | the Slack event journal, line framing |
| `ContextMirror`, `MessageMirror` | what reaches the database, and what comes back at a start |

Time is a non-decreasing natural number, fresh ids are parameters, and the outcome of every file or
database write is a parameter. Counters are unbounded unless a row below says otherwise.

## What turned out not to hold

Where the code does not do what its surroundings suggest, the model follows the code; there is a lemma
with a concrete case and one that says exactly when the property holds.

- Normalising a path twice is not normalising it once (`Paths.NormalizeNotIdempotent`,
  `Paths.NormalizeStableIffTrimmed`): only the outside of the whole path is trimmed.
- The expiry a client is told can lie after the moment its lease stops protecting it
  (`Leases.ToldExpiryNotProtected`, `Leases.ToldIsDeadlineIffPrompt`,
  `Leases.PromptGrantIsProtected`): the deadline counts from a
  clock read before the lock was obtained, the told expiry from a later one.
- A view of a revealed blind competition can lack submissions (`BlindCompetition.RevealedViewCanBePartial`,
  `BlindCompetition.RevealedViewCompleteIff`): submissions and reveal are read under separate locks.
- A journal write reported as failed may have left something behind, and then a claim can be acknowledged
  although the journal never opens again (`Journal.AcknowledgedClaimCanBeLost`, `Journal.ClaimSurvivesIff`,
  `Journal.OpensExactlyWhenClean`; for one step, `Journal.StaysInSyncIff`).
- A comment says that posting implies membership; the author can leave between the two halves of a post
  (`Posting.PostByNonMember`, `Posting.PostingMemberIff`).
- A cancel request can be answered "requested" for an event that is already over
  (`Journal.CancelCanMiss`, `Journal.CancelMissesIff`).
- The comment on the frame reader says that a trailing carriage return is stripped; an unterminated last
  frame keeps it (`Framing.TailKeepsCr`, `Framing.EveryFrameStrippedIff`).
- A context key whose row was not restored starts again at version 1, and its writes do not reach the
  table until they pass the row's version (`ContextMirror.LostWrite`, `ContextMirror.MirrorCatchesUpIff`).

## Model

| member | source | states |
|---|---|---|
| PolicyRules.RankKeyCompares | src/policy/evaluate.rs:105-127 | the seven-key comparison is the lexicographic comparison of one key per candidate |
| PolicyRules.RankIsStrictTotalOrder | src/policy/evaluate.rs:105-127 | the seven-key comparison is antisymmetric and transitive, and candidates with different keys never tie |
| PolicyRules.ExclusionMeans | src/policy/validation.rs:303-331 | a candidate is eligible exactly when it is available, not disabled or in outage, trusted if the data is restricted, and advertises every required capability up to white space and case; otherwise the reason is the first of these that fails |
| PolicyRules.RankMeans | src/policy/evaluate.rs:105-127 | of two valid candidates the first of the seven criteria in which they differ decides which goes first |
| PolicyRules.ClampedBudgetBounds | src/policy/budgets.rs:46-89 | a granted budget is positive and within the profile of its risk, the Critical profile and the absolute maxima |
| PolicyRules.BudgetRequestHonoured | src/policy/budgets.rs:46-89 | each requested limit of at least one and at most the profile's is granted exactly |
| PolicySelection.RankedLaws | src/policy/evaluate.rs:89-127 | the ranking holds exactly the candidates that are qualified for the task, strictly ascending, with distinct keys |
| PolicySelection.ExcludedMember | src/policy/evaluate.rs:89-103 | the exclusion list holds exactly the unqualified candidates, each with the reason it deserves |
| PolicySelection.RequiredLaws | src/policy/evaluate.rs:5-14 | the required keys are the trimmed request keys and the named reviewer, each once, in key order |
| PolicySelection.EnoughOptional | src/policy/evaluate.rs:416-433 | there are always enough optional candidates to reach a feasible goal |
| PolicySelection.SaturationIsExact | src/policy/validation.rs:246-250 | the saturating cost sum is the true sum, or the maximum when that is larger |
| PolicySelection.AffordableIsLargest | src/policy/evaluate.rs:446-464 | cost reduction stops at the largest affordable prefix that is not below the minimum |
| PolicySelection.KeptIsPrefix | src/policy/evaluate.rs:446-464 | with nothing required, cost reduction drops from the back and keeps a prefix of the pick |
| PolicySelection.ReviewerLastLaws | src/policy/evaluate.rs:435-443 | moving the reviewer keeps the members and their number, and puts the named reviewer last |
| PolicyTheorems.FrameLaws | src/policy/evaluate.rs:24-81 | a degradation that lets work start is in force only without required providers, reviewer, special executor, repository write, restricted data or risk above Medium; mode, protocol and target agree |
| PolicyTheorems.RiskNeverWeakens | src/policy/validation.rs:120-152 | stating a higher risk never lowers the effective risk, the mode, the default or the effective degradation behaviour, the approval or the budget tier |
| PolicyTheorems.ResolveLaws | src/policy/evaluate.rs:197-414 | mode resolution agrees with an independent table of running modes, is always feasible, and records a degradation exactly when the mode changes |
| PolicyTheorems.DegradationTheorem | src/policy/evaluate.rs:197-414 | an allowed decision runs in another mode exactly when a degradation is recorded, then nothing protects the task and Medium risk needs approval; the infeasible-after-degradation denial is unreachable |
| PolicyTheorems.OrderOfCandidatesIrrelevant | src/policy/evaluate.rs:89-127 | reordering the candidates changes nothing in the decision but the order of the exclusion list |
| PolicyTheorems.PickedIsRight | src/policy/evaluate.rs:416-443 | picking reaches the goal exactly, with every required candidate, no better optional one passed over, and the reviewer last |
| PolicyTheorems.KeptIsRight | src/policy/evaluate.rs:446-464 | cost reduction leaves the largest affordable right pick and never goes below the minimum |
| PolicyTheorems.SelectionTheorem | src/policy/evaluate.rs:416-546 | every allowed decision selects distinct qualified providers, all required ones, in the number mode, budget and cost allow, at a true cost within the ceiling, passes over no optional one that goes before, and in Consensus has exactly the last as reviewer, the named one if any |
| PolicyTheorems.ExclusionTheorem | src/policy/evaluate.rs:89-103 | of every decision, the exclusion list names exactly the unqualified candidates with their reasons, and everybody is either ranked or excluded |
| PolicyTheorems.AllowedIffPermitted | src/policy/evaluate.rs:143-529 | a valid request is allowed if and only if its required providers are eligible, a mode can run, the cheapest permitted set is affordable and the duration fits |
| PolicyTheorems.RefusalShape | src/policy/evaluate.rs:679-720 | a refusal selects nobody, gives a reason, and queues only under a policy that queues |
| PolicyTheorems.EstimatesTheorem | src/policy/evaluate.rs:584-605 | calls are providers times rounds without saturation, the wall clock is the stated duration, the sum or the maximum of latencies, and the context is the smallest advertised one |
| PolicyMeaning.EffectiveRiskMeans | src/policy/validation.rs:120-138 | the effective risk is the highest level that the stated risk, a repository write, a security-sensitive capability or restricted data reaches |
| PolicyMeaning.ModeMeans | src/policy/evaluate.rs:24-60 | the mode is the least that risk, writes, requested mode, requested protocol and named reviewer agree to; the required mode leaves out the requested one where a protocol is requested |
| PolicyMeaning.ProtocolMeans | src/policy/validation.rs:154-197 | a requested protocol of the final mode is kept, otherwise the mode's plain protocol runs; exactly two protocols have executors of their own |
| PolicyMeaning.BehaviorMeans | src/policy/validation.rs:260-301 | the degradation policy is the loosest that risk, writes, the request, named providers and special executors agree to |
| PolicyMeaning.ApprovalMeans | src/policy/evaluate.rs:138-140 | approval is required exactly for high effective risk and for repository writes |
| PolicyMeaning.BudgetMeans | src/policy/evaluate.rs:39-47 | the budget tier is the highest that the risk and the mode the policy needs call for |
| PolicyMeaning.ProfilesGrow | src/policy/budgets.rs:1-44 | budgets grow with the tier, and each tier has room for the modes it is for |
| PolicyAnswers.SummaryMeans | src/policy/evaluate.rs:646-677 | the summary counts everybody, repeats the frame, and names exactly the required keys that nobody eligible offers |
| PolicyAnswers.RefusalMeans | src/policy/evaluate.rs:143-529 | which obstacle a refusal names, in the order they are met, and whether the work is queued or denied |
| PolicyAnswers.TermsMean | src/policy/evaluate.rs:138-644 | every answer keeps the frame's budget, lease need and degradation policy; approval is asked for where the frame does or where it falls back to one agent, and the disposition follows |
| PolicyAnswers.ValidMeans | src/policy/validation.rs:1-118 | which requests the engine accepts, with every limit spelled out |
| PolicyAnswers.ReasonsMean | src/policy/evaluate.rs:15-85 | beyond the frame's explanations a decision gives the number it selected and the providers it misses exactly when true |
| PolicyAnswers.FrameReasonsMean | src/policy/evaluate.rs:15-85 | each explanation of a raised risk, mode, protocol, budget or degradation policy is given exactly when that was raised |
| PolicyEngine.NormalizeCapabilities | src/policy/validation.rs:76-94 | succeeds exactly on valid capability lists, with the set of trimmed lower-case values |
| PolicyEngine.NormalizeAgentKeys | src/policy/validation.rs:96-105 | succeeds exactly on valid distinct keys, with the trimmed keys; an error names a key that is to blame |
| PolicyEngine.ValidateRequest | src/policy/validation.rs:1-74 | rejects exactly the invalid requests, with an error that is true of the request |
| PolicyEngine.ValidateProviders | src/policy/validation.rs:28-57 | accepts exactly distinct valid candidates and collects the keys they offer |
| PolicyEngine.ValidateCandidate | src/policy/validation.rs:29-57 | accepts a candidate exactly when it is valid and its key is new |
| PolicyEngine.Partition | src/policy/evaluate.rs:89-103 | splits the candidates into the eligible and the excluded, each in request order |
| PolicyEngine.PickRequired | src/policy/evaluate.rs:416-425 | finds the required candidates in key order |
| PolicyEngine.Fill | src/policy/evaluate.rs:426-433 | adds the best optional candidates up to the goal |
| PolicyEngine.Select | src/policy/evaluate.rs:416-443 | the loops compute the specified pick |
| PolicyEngine.ReduceCost | src/policy/evaluate.rs:445-464 | the loop computes the specified reduction and reports whether anything was dropped |
| PolicyEngine.EvaluateValid | src/policy/evaluate.rs:3-644 | the imperative procedure returns the specified decision on every valid request |
| PolicyEngine.Evaluate | src/policy/evaluate.rs:1-644 | errors exactly on invalid requests, otherwise the specified decision |
| Paths.NormalizeFilePath | src/state.rs:1330-1362 | the loop over components computes the normal form or the specific error |
| Paths.PathErrorsMean | src/state.rs:1330-1362 | which paths are refused with which error; every other path has a normal form |
| Paths.NormalizeIsCanonical | src/state.rs:1330-1362 | a normal form is canonical, and its components are those of the trimmed input without the empty and dot ones |
| Paths.NormalFormIsPlain | src/state.rs:1330-1362 | a normal form is within the length limit, printable and free of backslashes |
| Paths.SlashPrefixIsComponentPrefix | src/state.rs:1384-1388 | on canonical paths, the string test "prefix then slash" is the proper-prefix relation on components |
| Paths.OverlapMeansSharedPath | src/state.rs:1384-1388 | two scopes overlap exactly when some canonical path is covered by both |
| Paths.LookupMeansCovering | src/state.rs:502-527 | the scope test of a single-path lookup is true exactly of the scopes that cover the path |
| Paths.NormalizeStableIffTrimmed | src/state.rs:1330-1362 | for every input that normalises, normalising twice is normalising once exactly when the normal form has no outer white space |
| Paths.NormalizeNotIdempotent | src/state.rs:1330-1362 | a path whose normal form normalises differently |
| Paths.RepositoryMeans | src/state.rs:1311-1328 | a repository name loses outer white space and then trailing slashes and nothing else, and what is left is short and printable |
| Leases.StepKeepsInv | src/state.rs:374-536 | every request keeps exclusivity, one holding per owner and path, and the agreement of table and grants |
| Leases.RunKeepsInv | src/state.rs:374-536 | the same in every reachable state |
| Leases.MutualExclusion | src/state.rs:374-431 | in every run, all stored or still protected leases covering a path belong to one agent |
| Leases.FencingTokens | src/state.rs:390-431 | tokens strictly increase in grant order, and a lease keeps owner, repository, path and token for life |
| Leases.OnlyTheHolderRenews | src/state.rs:434-487 | renew and release succeed only with owner and token of an unreleased unexpired grant, and then always do |
| Leases.GrantTerms | src/state.rs:390-460 | a grant's deadline counts from the clock read before the lock and its told expiry from the one after; a renewal changes nothing else, an acquisition gets exactly what it asked for, with the old token or the next |
| Leases.GrantLastsItsTime | src/state.rs:374-487 | in every run, until it is renewed, released or acquired again by its owner, a grant is stored and exclusive while the clock is below the time read plus the time to live, and gone for every request that reads the clock from then on |
| Leases.OthersStay | src/state.rs:374-536 | a request drops what has expired and changes only the lease it grants or releases |
| Leases.RefusalTells | src/state.rs:434-487 | a renewal or release is refused as unknown, foreign or stale exactly when the lease is not live, is another's, or has another token, in this order |
| Leases.AcquireAnswers | src/state.rs:374-431 | an acquisition is refused as full exactly when it meets no conflict, renews nothing of its own, and the live leases have reached the limit |
| Leases.LookupFindsHolders | src/state.rs:489-536 | looking up a path returns exactly the unexpired leases that cover it |
| Leases.LookupAnswers | src/state.rs:489-527 | a lookup returns exactly the unexpired leases of the repository and agent asked for whose scope shares a path with the query |
| Leases.ConflictMeansSharedPath | src/state.rs:374-388 | an acquire is refused as a conflict exactly when another agent's live lease shares a path with it |
| Leases.ToldIsDeadlineIffPrompt | src/state.rs:374-430 | the told expiry is the enforced deadline exactly when the clock did not move while waiting for the lock |
| Leases.PromptGrantIsProtected | src/state.rs:374-430 | in every run, an unreleased grant obtained without waiting is stored while the clock is below the expiry its holder was told, and nobody else holds a path it covers |
| Leases.ToldExpiryNotProtected | src/state.rs:374-430 | a run in which two agents both hold an unexpired told lease on one path |
| LeaseTables.LeaseTable.AcquireFileLease | src/state.rs:348-431 | validation errors change nothing; otherwise a step of the lease protocol |
| LeaseTables.LeaseTable.AcquireLocked | src/state.rs:374-431 | the part under the lock is a step of the lease protocol |
| LeaseTables.ChecksMean | src/state.rs:348-373 | which of an acquisition's five checks is reported, and what passes them |
| LeaseTables.LeaseTable.RenewFileLease | src/state.rs:434-460 | a bad time to live changes nothing; otherwise a step of the lease protocol |
| LeaseTables.LeaseTable.ReleaseFileLease | src/state.rs:462-487 | a step of the lease protocol |
| LeaseTables.LeaseTable.FileLeaseHolders | src/state.rs:489-536 | validation errors change nothing; otherwise the lookup step |
| ChannelLog.EvictedIsLongest | src/state.rs:1047-1059 | dropping from the front while overfull leaves the longest suffix within the limits |
| ChannelLog.PostKeepsLongest | src/state.rs:1023-1065 | evicting from the old window gives what evicting from the whole log would |
| ChannelLog.WindowIsLongestSuffix | src/state.rs:1023-1065 | after any sequence of posts the window is the longest suffix within count and bytes, and holds the newest message |
| ChannelLog.TruthfulAppend | src/state.rs:854-951 | folding the events gives the members: a stream stays truthful exactly when each new event matches the members so far, counts them and keeps them at most 32 |
| ChannelLog.PresenceAlternates | src/state.rs:854-951 | per agent, joins and leaves alternate and a join comes first |
| ChannelLog.SeatsAreBounded | src/state.rs:854-951 | a channel never has more than 32 members |
| Channels.Channel.Join | src/state.rs:854-925 | joining is idempotent, refuses the 33rd member, and announces exactly the new member with the new count |
| Channels.Channel.Leave | src/state.rs:927-951 | leaving removes exactly that member and announces it, or changes nothing |
| Channels.Channel.EvictOldest | src/state.rs:1047-1059 | the eviction loop leaves the longest fitting suffix and an exact byte count; subtraction never saturates |
| Channels.Channel.Append | src/state.rs:1023-1065 | a post numbers the message, broadcasts it and keeps the invariant and the newest message |
| Channels.Channel.BeginPost | src/state.rs:979-1021 | the first half of a post: refuses exactly the empty, oversized or seatless ones without change, otherwise the author has a seat and only a newcomer is announced |
| Posting.PostingMemberIff | src/state.rs:979-1065 | in every run of joins, leaves and posts in two halves, the author is a member when the message lands exactly when no leave of the author came in between without a return |
| Posting.SeatIsKept | src/state.rs:1020-1065 | without a leave request of the agent, a seat is kept |
| Posting.PostByNonMember | src/state.rs:1020-1065 | for every message, a run in which it lands after its author has left |
| Channels.Channel.History | src/state.rs:1072-1085 | exactly the retained messages after the given number, in order |
| Channels.Channel.RestoreMessages | src/state.rs:774-802 | restores the longest fitting suffix, an exact byte count, and a next number above every restored one |
| Subscription.NumbersIncrease | src/tcp.rs:387-424 | in every interleaving of posts and deliveries, message numbers on one subscription strictly increase |
| Subscription.NothingIsMissed | src/tcp.rs:387-424 | every event after the subscribe call is shown in order or counted by a lag notice |
| Subscription.ReadCoversWindow | src/state.rs:1096-1111 | every requested message retained at the read is replayed up to the high-water mark, and every newer one comes live |
| Subscription.AppendIsChannelStep | src/state.rs:1023-1065 | what a post does to a channel is one of the interleaved steps |
| Subscription.PresenceIsChannelStep | src/state.rs:854-951 | what a join, a leave or the first half of a post does to a channel is one of the interleaved steps, or nothing |
| Subscription.ValidChannelStarts | src/state.rs:1096-1111 | every channel in a state its operations can leave it in satisfies what a subscription starts from |
| Subscription.ValidChannelDelivers | src/tcp.rs:387-424 | hence every subscription to such a channel shows strictly increasing numbers, without gap or duplicate |
| SharedContext.OrdinalKeyInjective | src/orchestration/part1.rs:405-413 | submission keys of different ordinals differ |
| SharedContext.GenericWriteStaysOut | src/context_access.rs:11-49 | an external write that is not refused lands outside every workflow and internal namespace |
| WorkflowPlans.SelectCandidates | src/orchestration/part3.rs:1-55 | the requested agents in the order first requested, or all fitting ones in registry order; the exact condition of failure and the first fault as error |
| WorkflowPlans.FaultMeans | src/orchestration/part3.rs:16-34 | when a requested key is usable, and what is said of it if not |
| WorkflowPlans.FitsMeans | src/orchestration/part3.rs:35-47 | without requested keys, everybody but humans, of the kinds asked for if any, with all capabilities |
| WorkflowPlans.FirstsMeans | src/orchestration/part3.rs:16-34 | requested agents come in the order in which they are first requested, each once |
| WorkflowPlans.FittingInOrder | src/orchestration/part3.rs:35-47 | filtered agents come in registry order |
| WorkflowPlans.BuildWorkers | src/orchestration/part3.rs:57-162 | the loop gives the first candidates consecutive ordinals and their phases |
| WorkflowPlans.BuildAssignments | src/orchestration/part3.rs:57-192 | the assignments of the mode, or the specific error; built exactly when the mode's numbers can be met, and then well-formed |
| WorkflowPlans.PlanMeans | src/orchestration/part3.rs:57-192 | a plan is built exactly when the mode's numbers can be met; worker i is candidate i, and a Consensus ends with the named reviewer or else the candidate right after the workers |
| WorkflowPlans.AssignmentsWellFormed | src/orchestration/part3.rs:57-192 | built assignments have consecutive ordinals, distinct agents, and a reviewer exactly in Consensus, last |
| WorkflowProtocol.ForeignWrites | src/context_access.rs:37-49 | external writes are frame steps of the protocol |
| WorkflowProtocol.StepKeepsInv | src/orchestration/part1.rs:364-413 | reading, inserting and external writes keep the protocol's invariant |
| WorkflowProtocol.SubmissionOrder | src/orchestration/part2.rs:193-259 | in every interleaving each assignment is accepted at most once, Sequential submissions form an ordinal prefix, and a Consensus reviewer is after every worker and last |
| WorkflowProtocol.SubmissionsAreFinal | src/orchestration/part2.rs:11-25 | accepted submissions are only ever extended, never changed or removed |
| WorkflowProtocol.RunReaches | src/orchestration/part2.rs:11-25 | what a reader loads at any time is exactly what was accepted, and satisfies the order of the mode |
| WorkflowProtocol.TurnMatchesStatus | src/orchestration/part2.rs:67-259 | an assignment passes the turn check exactly when it is the reported current agent or, without one, pending |
| WorkflowProtocol.TurnMeans | src/orchestration/part2.rs:193-259 | who may submit, told from ordinals, and what everybody else is told |
| WorkflowProtocol.StatusMeans | src/orchestration/part2.rs:67-191 | the stage, the current agent and the submitted and pending agents, told from the ordinals with a submission |
| WorkflowProtocol.CompletedMeansClosed | src/orchestration/part2.rs:67-259 | Completed exactly when everybody has submitted, and exactly when nobody may submit |
| WorkflowProtocol.MaximalRunsAreComplete | src/orchestration/part2.rs:67-259 | nobody can submit any more exactly when every assignment was accepted, and then the status is Completed |
| BlindCompetition.CheckPlan | src/blind_competition/http.rs:74-117 | accepts exactly two or more distinct valid registered workers, at most the maximum, with a separate registered reviewer; the plan keeps their order |
| BlindCompetition.StepKeepsInv | src/blind_competition/http.rs:205-293 | every step of submit, reveal and view keeps the invariant |
| BlindCompetition.RevealIsFinal | src/blind_competition/http.rs:267-293 | a reveal happens at most once, with every worker submitted, and no submission lands afterwards |
| BlindCompetition.ViewIsTwoReads | src/blind_competition/storage.rs:63-106 | every view shows the submissions accepted at one step of the run, its read, and the reveal at a later one |
| BlindCompetition.ViewsAreHonest | src/blind_competition/storage.rs:63-106 | visible plus hidden is the number accepted at the read; before the reveal a worker sees exactly the own submission if it was accepted by then, and nothing else; a revealed view shows everything it read, and everyone has submitted by then; stage and the reviewer's permission follow |
| BlindCompetition.RevealedViewCompleteIff | src/blind_competition/storage.rs:63-106 | a view that says revealed shows the final set exactly when every worker had been accepted when it read the submissions |
| BlindCompetition.RevealedViewCanBePartial | src/blind_competition/storage.rs:63-106 | for every two-worker plan, a run with a view that says revealed and lacks a submission |
| Admission.NoViolationMeansAffords | src/policy_admission/storage.rs:339-365 | the violation check passes exactly when usage is within every limit |
| Admission.AttemptedMeans | src/policy_admission/storage.rs:327-337 | totals are attempted exactly when no counter passes the 64-bit maximum |
| Admission.ReportOutcome | src/policy_admission/storage.rs:179-227 | a report is recorded exactly when the admission is active, the provider selected, the totals representable and within budget, and the write succeeds; otherwise usage stays, and an overage or overflow exhausts |
| Admission.StepKeepsInv | src/policy_admission/storage.rs:76-266 | every operation, with writes that persist or fail, keeps the accounting invariant |
| Admission.UsageIsConserved | src/policy_admission/storage.rs:179-227 | over every run, usage is the exact total (maximum for concurrency) of the accepted reports, within every limit, all from the owner for selected providers |
| Admission.TermsAreFinal | src/policy_admission/http.rs:79-104 | owner, approver, mode, providers and budget never change and a terminal record never changes at all, so the owner check outside the lock remains valid |
| Admission.TerminalAcceptsNothing | src/policy_admission/storage.rs:385-396 | once a record is terminal, no later report is accepted |
| Admission.CreatedIff | src/policy_admission/storage.rs:76-177 | a first creation succeeds exactly when the request is about the plan, the policy allows the plan's mode and agents, actor, approver and reason are plain, and the write persists; the record then says just that |
| Admission.MatchesMeansFits | src/policy_admission/storage.rs:268-325 | a request is about a plan exactly when mode, lease requirement, normalised capabilities and raw agent keys agree |
| Admission.CreationIsOnce | src/policy_admission/storage.rs:82-84 | an existing record is returned unchanged |
| Admission.EndedIff | src/policy_admission/storage.rs:229-266 | an admission ends exactly when it is active, the actor owns it or is one of its providers and the write persists; then only status and reason change |
| Admission.AdmittedWithinPolicy | src/policy_admission/storage.rs:76-177 | over every run, an admission created from a request is about its plan, has the decision's mode, providers and budget, stays within budget and risk profile, and has an approver wherever decision or risk ask for one; a plan that needs a lease has an approver and more than one agent, a security-sensitive one is a Consensus |
| Admission.AdmissionStore.CreateAdmission | src/policy_admission/storage.rs:76-177 | creates the specified record once, or fails without change |
| Admission.AdmissionStore.RecordUsage | src/policy_admission/storage.rs:179-227 | the specified report outcome |
| Admission.AdmissionStore.Transition | src/policy_admission/storage.rs:229-266 | moves an active record to the status for an authorised actor; every record that is not active is refused, and every failure changes nothing |
| Journal.OpensIff | src/slack_bridge.rs:695-716 | the journal opens exactly when every line that is not blank parses to a valid record |
| Journal.EventIdMeans | src/slack_bridge.rs:1209-1215 | event ids are 1 to 255 letters, digits and four marks, so without spaces, slashes and control characters |
| Journal.AppendOpensIff | src/slack_bridge.rs:805-824 | a write keeps an openable journal openable exactly when it is whole, does not run into an unterminated record and is valid, or wrote nothing |
| Journal.BrokenStaysBroken | src/slack_bridge.rs:695-716 | a journal that does not open never opens again by appending |
| Journal.KeyedById | src/slack_bridge.rs:695-716 | replay files every record under its own event id |
| Journal.RunKeepsInv | src/slack_bridge.rs:718-824 | in every run the journal, if it opens, holds everything memory holds, or a later version of it |
| Journal.ClaimedAtMostOnce | src/slack_bridge.rs:718-737 | across crashes, restarts and failed writes of every kind, no event id is claimed twice |
| Journal.IntentNeverShrinks | src/slack_bridge.rs:746-803 | records, cancel intent and posted agents never disappear |
| Journal.AcknowledgedIsKept | src/slack_bridge.rs:746-800 | in every run, an acknowledged posted agent or cancel request is in the record from then on, through restarts and failed writes |
| Journal.StepRecords | src/slack_bridge.rs:718-803 | memory changes by a new record on a new claim, by the change on an acknowledged update, and by nothing else short of a restart |
| Journal.ChangedMeans | src/slack_bridge.rs:739-781 | what each change does to a record |
| Journal.OpensExactlyWhenClean | src/slack_bridge.rs:695-824 | in every run the journal opens exactly when no write was torn, none followed one that failed before its newline, and every written record was valid |
| Journal.ClaimSurvivesIff | src/slack_bridge.rs:695-737 | an acknowledged claim is found again by a restart exactly when all writes so far were clean in that sense |
| Journal.AcknowledgedClaimCanBeLost | src/slack_bridge.rs:805-824 | a run in which a write fails before its newline, the next claim is acknowledged, and the journal never opens again |
| Journal.StaysInSyncIff | src/slack_bridge.rs:792-824 | replay stays equal to memory exactly when nothing was written, a valid record landed, or the line repeats what memory holds |
| Journal.AtomicWritesStayInSync | src/slack_bridge.rs:695-824 | with writes that land wholly or not at all, of the valid ids and keys the callers pass, replay equals memory throughout every run |
| Journal.RecordsAreExact | src/slack_bridge.rs:695-803 | with atomic writes, in every run the ids on record are those of the acknowledged claims, and posted agents, cancel intent, workflow and state are exactly what was acknowledged, last change winning |
| Journal.CancelMissesIff | src/slack_bridge.rs:761-774 | an accepted cancel lands on a finished event exactly when the event ended between snapshot and write and was not reopened |
| Journal.CancelCanMiss | src/slack_bridge.rs:761-774 | a run in which it does |
| Journal.EventStore.Open | src/slack_bridge.rs:695-716 | the loop over lines computes the replay, or fails |
| Journal.EventStore.Claim | src/slack_bridge.rs:718-737 | invalid id, duplicate, failed write or claim, with memory changed only by a claim |
| Journal.EventStore.Update | src/slack_bridge.rs:792-803 | changes memory first and restores the previous record when the write fails |
| Journal.EventStore.FinishCancel | src/slack_bridge.rs:761-774 | decides by the snapshot, not by the record it then changes |
| Framing.FramesAreLines | src/tcp.rs:70-121 | reading to the end is splitting on newlines; it fails exactly when a line or the tail is over the limit, after delivering everything before it |
| Framing.StripCrMeans | src/tcp.rs:114-118 | a frame is its line less one carriage return if it ends in one |
| Framing.EveryFrameStrippedIff | src/tcp.rs:70-121 | every frame is without its carriage return exactly when the stream does not end in one |
| Framing.TailKeepsCr | src/tcp.rs:78-84 | an unterminated frame that keeps its carriage return |
| Framing.WrittenReadsBackIff | src/tcp.rs:123-130 | written lines come back one by one exactly when none holds a newline, ends in a carriage return or is over the limit |
| Framing.Reader.ReadCappedLine | src/tcp.rs:70-121 | whatever the chunks, the frame and the rest depend only on the stream, and the buffer never holds more than the limit |
| Framing.Reader.ReadAll | src/tcp.rs:74-118 | reading until the end or an error gives the frames of the stream |
| ContextMirror.HighestVersionStands | src/db.rs:460-483 | whatever writes arrive in whatever order, the row is the highest version among them and the old row, which wins ties |
| ContextMirror.OrderIrrelevant | src/db.rs:460-483 | the same writes in another order, or repeated, leave the same row |
| ContextMirror.NoCompetition | src/state.rs:1152-1166 | the writes of a restored or new key never share a version with each other or with the row |
| ContextMirror.VersionsCountWrites | src/state.rs:1152-1166 | a key's version is the restored version plus its accepted writes, up to the 32-bit maximum |
| ContextMirror.MirrorCatchesUpIff | src/db.rs:460-483 | once all writes ran, the row equals memory exactly when the version fits the column and, for an unrestored row, has passed it |
| ContextMirror.UnrestoredIgnoresWrites | src/db.rs:460-483 | an unrestored row survives as many writes as its version |
| ContextMirror.LostWrite | src/db.rs:299-338 | a row too large to restore, and a write to it that is lost |
| ContextMirror.RestoredIff | src/db.rs:299-338 | a row comes back exactly when it is restorable and fewer than 10000 such rows precede it |
| ContextMirror.LoadStarts | src/db.rs:299-338 | loading the rows of a table gives the start that the mirror theorems assume |
| ContextMirror.ContextTable.SaveContext | src/db.rs:460-483 | replaces the row exactly when the version is higher; fails above the column's maximum |
| ContextMirror.Context.Set | src/state.rs:1115-1169 | the specific refusal without change, or the entry with the next version, stored and sent |
| ContextMirror.SettingMeans | src/state.rs:1122-1163 | which writes are refused, the first reason being given, and what an accepted one stores |
| ContextMirror.Context.RestoreEntry | src/state.rs:807-830 | stores a valid entry when there is room, or nothing |
| ContextMirror.Context.Load | src/db.rs:299-338 | the loop restores exactly the specified rows and counts them |
| MessageMirror.RowsAreFinal | src/db.rs:398-424 | a message row is never overwritten, and a free number gets the message that carries it |
| MessageMirror.OrderIrrelevant | src/db.rs:398-424 | the same messages in another order, or repeated, leave the same table |
| MessageMirror.StoredIff | src/db.rs:398-424 | a message is stored as it is exactly when its number was free and fits the column |
| MessageMirror.NewMessagesAreStored | src/state.rs:799-801 | messages numbered above the table are each stored as they are exactly when the number fits the column |
| MessageMirror.RestoredChannelIsMirrored | src/state.rs:774-802 | of the messages a restored channel broadcasts, whichever arrive in whatever order are stored as they are |
| MessageMirror.LoadMessages | src/db.rs:206-296 | the first number given out exceeds every row, and the window comes from the newest rows whose content and stored metadata are small enough |
| MessageMirror.RestoredMeans | src/db.rs:237-262 | a row comes back exactly when it is among the last rows the window holds and its content and stored metadata are within the limit |
| MessageMirror.MessageTable.InsertMessage | src/db.rs:398-424 | inserts a free number, ignores a taken one, fails above the column's maximum |

## Left out

- Journal.AtomicWritesStayInSync: takes the workflow ids and agent keys to be valid, because the callers of the store check them (src/slack_bridge.rs:1489) and the store itself does not; without that, Journal.StaysInSyncIff applies.
- Journal.EventStore.Write: a line whose sync failed stays in the file; that a power loss could take it away again is not modelled.
- Channels.Channel.BeginPost: the persistence and metrics calls of a post are not modelled.
- Subscription.NumbersIncrease: one subscription on one connection; the checks against a second subscription to a channel and against too many of them are not modelled.
- LeaseTables.LeaseTable.FileLeaseHolders: returns the leases as a set; the agent details and the sort order of the holder list are not modelled.
- BlindCompetition.ViewsAreHonest: loaded submissions are a set; their sort order is not modelled.
- PolicyEngine.Evaluate: reasons and errors are data; their wording is not modelled. Repeated fields of the flat request are grouped into one task record.
- PolicyMeaning.ProfilesGrow: the single figures of the budget tiers appear in the table alone; what is proved of them is their order and that each tier has room for its modes.
- The purpose, metadata and formatted timestamps of leases, members and records.
- HTTP routing, authentication, timeouts, server-sent events and socket plumbing.
- The control plane, lease renewal, lease descriptors and assignment claims, which rest on an external service.
- Embeddings, semantic resolve and search, metrics, health and preflight probes.
- Slack event processing around the journal, project bindings and TCP security settings.
- Provider adapters, scripts, configuration parsing, and SQL beyond the conflict clauses.
- File permissions, symlink checks, message authentication codes, UUIDs, JSON encoding and lossy UTF-8 decoding.
- The inside of the broadcast queue: a bounded queue with a cursor per receiver and a count of dropped events is taken as given.
- Negative versions and numbers in the database, which no operation of the bridge writes.
- Integer maxima of lease tokens, message numbers in memory and the lease clock.
