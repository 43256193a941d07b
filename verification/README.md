# DELMOS: a verified model

DELMOS keeps the work products, plans, phases and costs of engineering projects. Its rules live in
transactions over PostgreSQL tables. This project models those transactions in Dafny and proves what they keep
over every run.

Check everything with `dafny verify dfyconfig.toml`.

## How the model is built

- A table is a map or a sequence, and a transaction is one step: a function from the tables to the tables and a reply.
  The properties are proved about these functions, over all runs of calls.
- The classes `ProjectStore.Store`, `Economics.CostStore`, `Dispatcher.Engine` and `Trace.TraceStore` hold one field
  per table. Their methods check and update the fields step by step, with the loops of the original, and each one is
  proved equal to the function of the same operation.
- Two parts are about interleaving and are modelled as systems of small steps: the outbox dispatcher with many
  workers (`DispatcherRuns`), and the metrics collector among writers (`Collector`).
- A payload hash is represented by its preimage, so SHA-256 counts as injective. Clocks, tokens and permission
  look-ups are parameters. The verdict of the rule engine on a command is the parameter `vetoed`; `Rules` proves what
  that verdict is.

| file | what it covers |
|---|---|
| `Review`, `ReviewSafety`, `ReviewRuns`, `ReviewExact` | work products, revisions, review requests, decisions; the review protocol over all runs |
| `ReviewDrift` | which latest revisions the protocol vouches for, in every run |
| `PhaseGraph`, `PlanManifest` | plan manifests, their validation, the depth-first cycle check |
| `Plan`, `PlanSafety`, `PlanRuns`, `PlanGuarantees`, `PlanExact` | plan revisions and their application, milestones, phases, recorded costs; the project over all runs; when each call is accepted and what it leaves |
| `Scenarios`, `ProjectScenarios` | what can be reached: approvals, plans in effect, and runs in which the code breaks a promise |
| `ProjectStore` | the imperative store for both |
| `Dispatcher`, `DispatcherRuns` | outbox, deliveries, leases; all interleavings of workers |
| `LaborRates`, `EarnedValue`, `EarnedValueExact`, `Economics` | rates by period, earned value and what its numbers are, baselines, deliverable weights |
| `InputVersions`, `LedgerFollows`, `Metrics`, `Collector` | versions of the metric inputs, the ledger behind the review tables, observations, the collector among writers |
| `Trace` | recursive traversal of the trace links |
| `Calendar`, `CronFields`, `Cron` | the calendar, the fields of an expression, and the search for the next matching minute |
| `Conditions`, `Rules` | condition trees and rule enforcement |
| `Canonical`, `Composition` | strings that are hashed, composition manifests |

## Properties that the code does not have

Each is stated with an input that shows it, reached from an empty database where there is a run, and with the exact
condition under which the code has the property. The theorems about runs are about all runs, these included.

- "The latest revision of an approved product was approved, and the open request is for the latest revision." A
  specification revision (`internal/project/composition_store.go:252`) changes neither the status nor the open request,
  unlike every other revision; outside draft it leaves a product that has *drifted*, until it is a draft again.
  `Scenarios.ApprovedWithoutApproval` and `Scenarios.ReviewOfAnOlderRevision` are runs that end there.
  `ReviewDrift.ReachableApproved` and `ReviewDrift.ReachableInReview` say for every run that the property holds of a
  product exactly if it has not drifted, and `ReviewDrift.DriftExactly` which products have: those whose specification
  was revised outside draft and which were no draft since. A caller prevents it by revising drafts only:
  `ReviewDrift.SpecificationRevisionExact` for one call, `ReviewDrift.GuardedNeverDrifts` for one product over a run.
- "A phase completes on approved revisions only." `ProjectScenarios.CompletedWithoutApproval` is a run that completes a
  phase on a revision nobody was asked about. `PlanGuarantees.CompletionGate` and `ReachableCompletion` say of every
  accepted completion that an evidence row is certified exactly if its product has not drifted, and
  `PlanGuarantees.GuardedEvidence` that products revised only in draft have certified evidence.
- "Retirement is a step from draft to obsolete" (so the comment at `internal/project/workproduct.go:210-211`). The code
  retires from every status: `ReviewExact.RetireAcceptsExactly` says when, and `Scenarios.RetiredInReview` and
  `RetiredWhenApproved` are runs to a product in review and an approved one that can be retired.
- "A started phase has only completed dependencies." A new plan can break it: `ProjectScenarios.StartedBeforeItsDependency`
  is a run in which an accepted application does. `PlanGuarantees.ApplicationOrderExact` says which manifests keep it,
  and `DependenciesStayCompleted` that nothing else breaks it.
- "A repeated operation key is answered with the stored decision." It is refused once the product has a newer revision
  than the decision, even for the same call: `Scenarios.KeyRefusedLater` is a run that ends so, `ReviewRuns.ReplayExact`
  and `ReplayAfterRun` say exactly when.
- "Until a lease ends no other worker can claim the delivery." `markFailed` (`internal/automation/dispatcher.go:258-267`)
  frees the delivery whoever calls it: `DispatcherRuns.LeaseLostInTime` is a run in which a worker loses it within its
  lease. `LeaseProtects` says exactly when the holder keeps it, `HeldExactly` the same without a time limit, and
  `FencedLeaseProtects` that the property holds if only token holders report.
- "Each effect is committed once." `markFailed` (`internal/automation/dispatcher.go:258-267`) does not compare the lease
  token. `DispatcherRuns.CommittedTwice` is a run in which one effect is committed twice. `CommitsOf` counts the commits
  of every run exactly, and `AtMostOnce` and `NoLeaseTakenAtMostOnce` give conditions under which they are single.
- "Every dependent link is marked." Those more than 99 links away are not: `Trace.UnmarkedDependent` is a chain of 101
  links whose last one is never marked, `Trace.QueryExact` is exact about the limit on every graph.
- "The search for the next minute succeeds." `Cron.LeapDayMissedIn2025`: from the end of 2024 the 29th of February is not
  found. `Cron.NeverFailsExactly` says for which expressions the search never fails, and `NeverFailsAnyWeekday` gives the
  short form for those that admit every weekday.
- "Payloads with the same hash are the same." `Canonical.NulCollision` has two requirements that differ in title and body
  and hash alike, by a NUL in a field. `PayloadInjective` says that a payload without NUL shares its hash with none, and
  `NulBreaksInjectivity` exactly which payloads collide with another of their type. PostgreSQL refuses a NUL in a text
  column, so two such payloads are never both stored.

## Model

| member | source | states |
|---|---|---|
| ReviewRuns.StepKeeps | internal/project/decision.go:92-235 | every call, accepted or refused, keeps the protocol: in review iff an open request, true hashes, independent decisions, approvals after reviews |
| ReviewRuns.StepSchema | internal/migrate/sql/0015_review_and_approval.sql:11-83 | every call, from any tables that meet the constraints of the schema, meets them again: references, one open request per product, one signature per person and kind, one decision per key; and it only adds revisions, pins, assignments and decisions |
| ReviewDrift.ReachableInReview | internal/project/review.go:184-211 | in every reachable state a product is in review iff it has exactly one open request, with the hash of the revision it pins; and that revision is the latest iff the product has not drifted |
| ReviewDrift.ReachableApproved | internal/project/decision.go:128-178 | in every reachable state the latest revision of an approved product has a positive approval after a positive review in the same request, both by assigned persons other than its author, on its hash, iff the product has not drifted |
| ReviewRuns.ApprovalCertifies | internal/project/decision.go:145-178 | every approval ever recorded, of whatever revision, is independent, assigned, and preceded by an independent review in its request |
| ReviewDrift.SpecificationRevisionExact | internal/project/composition_store.go:252-255 | after an accepted specification revision the product is still current, its open request and its approval about the latest revision, iff it was a draft |
| ReviewDrift.TrackedStep | internal/project/composition_store.go:173-288 | every call of the protocol keeps the drifted products apart from the current ones: drifted ones have a latest revision that came after every request, the others a latest revision that is the one asked about |
| ReviewDrift.DriftExactly | internal/project/composition_store.go:252-255 | after any run a product has drifted iff its specification was revised outside draft and the product has been no draft since |
| ReviewDrift.CertifiedExactly | internal/project/decision.go:128-178 | the latest revision of an approved product is certified iff the product has not drifted |
| ReviewDrift.GuardedNeverDrifts | internal/project/composition_store.go:194-217 | a product whose specification is revised only in draft never drifts, whatever is done to other products |
| ReviewDrift.DriftedHasNoDecision | internal/project/decision.go:128-160 | no decision is about the latest revision of a drifted product |
| ReviewRuns.DecideNeverStale | internal/project/decision.go:132-163 | from a state of the protocol, the branches for a stale hash and for a missing request are never taken |
| ReviewRuns.SubmitNeverFindsOpen | internal/project/review.go:123-195 | a submission of a draft never meets an open request |
| ReviewRuns.DecideKeeps | internal/project/decision.go:92-235 | a decision keeps the invariant, whatever its kind and whether or not it is refused |
| ReviewRuns.DecideShape | internal/project/decision.go:118-207 | a decision that changes anything passed assignment, independence, hash, quorum, rules and signature on the one open request, and has exactly its recorded effect |
| ReviewDrift.ApprovedIsCurrent | internal/project/decision.go:279-310 | an approval of a product that has not drifted leaves its latest revision with an approval after a review |
| ReviewSafety.DecisionOpenness | internal/project/decision.go:279-310 | closing the request and moving the product together keep "in review iff open" |
| ReviewSafety.AddRevisionKeeps | internal/project/workproduct.go:155-185 | a new revision returns the product to draft and supersedes its request, which keeps the protocol |
| ReviewSafety.RetirementKeeps | internal/project/workproduct.go:247-254 | retirement supersedes the open request, which keeps the protocol |
| ReviewSafety.SubmissionKeeps | internal/project/review.go:184-212 | opening a request for the latest revision with its assignments keeps the protocol |
| ReviewRuns.ObsoleteStays | internal/project/workproduct.go:132-141 | while revisions of obsolete products are vetoed, a retired product stays retired with the same revisions after every run of calls |
| ReviewRuns.ReplayExact | internal/project/decision.go:312-340 | a call with a stored operation key changes nothing; it is answered with the stored decision iff actor, project, product, kind and reason are the same and the decision is about the latest revision, and refused otherwise |
| ReviewRuns.ReplayAfterRun | internal/project/decision.go:106-116 | after every run of calls, repeating a committed call returns its decision iff the latest revision is the one decided on, and is refused otherwise; nothing changes either way |
| ReviewRuns.CommittedDecision | internal/project/decision.go:252-273 | a fresh key commits exactly one decision, stored under that key, on the revision its request pins |
| ReviewExact.SubmitAcceptsExactly | internal/project/review.go:102-195 | a submission is accepted iff the product is a draft of the project, the assignments are proper (distinct, permitted, never the author, both roles) and no rule vetoes |
| ReviewExact.SubmitAssignsExactly | internal/project/review.go:184-206 | the new request is open for the latest revision, with exactly the proposed people, and nobody's other assignments change |
| ReviewExact.SubmissionMoves | internal/project/review.go:184-212 | an accepted submission puts the product in review; its request is open and pins the latest revision with its hash |
| ReviewExact.CreateExactly | internal/project/workproduct.go:31-102 | a product is created iff its type is not the plan's, its code is free in the project and it has a title; as a draft with one revision |
| ReviewExact.ReviseExactly | internal/project/workproduct.go:106-208 | a revision is accepted iff the product is in the project at the expected row version without veto; it is added, the product is a draft, its open request superseded |
| ReviewExact.ReviseSpecificationExactly | internal/project/composition_store.go:173-288 | a specification revision is accepted iff its content is valid and the specification is in the project, not obsolete, at the expected row version; status and requests stay |
| ReviewExact.DecideAcceptsExactly | internal/project/decision.go:92-201 | a decision under a fresh key is accepted iff the actor is assigned, independent and has not decided so before, with the quorum, the reason and the consent its kind needs |
| ReviewExact.DecisionMoves | internal/project/decision.go:279-310 | an accepted decision leaves the product in review, approved or a draft by its kind, its request open, approved or sent back, and replies with that status |
| ReviewExact.DecisionRow | internal/project/decision.go:252-273 | it adds one row, on the revision and hash the request pins, by the actor, with the outcome of its kind, the reason and the key |
| ReviewExact.RetireAcceptsExactly | internal/project/workproduct.go:212-254 | a retirement is accepted iff the product is one of the project, not its plan, and obsolete already or of the expected version without veto; whatever its status |
| ReviewExact.RetireRetires | internal/project/workproduct.go:240-254 | after it the product is obsolete, without open request and with its revisions; an obsolete one is left as it was |
| ReviewExact.OthersUntouched | internal/project/decision.go:279-310 | a call about one product leaves the row, the revisions and the requests of every other product alone |
| ReviewExact.RowVersionCounts | internal/project/workproduct.go:172-185 | the row version rises by one for each call that changes the product, and by none for the others |
| ReviewExact.VersionUsedOnce | internal/project/workproduct.go:142-144 | after a revision, of a specification or not, is accepted for a row version, no later revision or retirement is accepted for the same version, after whatever run |
| PhaseGraph.HasPhaseCycle | internal/project/plan.go:764-794 | true iff the dependency graph has a directed cycle, and iff the phases cannot be ordered, for whatever order the map is iterated in; terminates |
| PhaseGraph.CycleCheck.Visit | internal/project/plan.go:770-788 | the recursive visit finds a cycle or finishes the key, keeping the finished keys closed under dependencies |
| PhaseGraph.OrderExcludesCycles | internal/project/plan.go:245-247 | an order with dependencies first exists only without cycles |
| PlanManifest.Validate | internal/project/plan.go:199-274 | accepts exactly the valid manifests: keys, references, dates, dependencies and acyclicity |
| PlanManifest.ManifestExactly | internal/project/plan.go:199-274 | a manifest is valid iff extensions, keys, deliverables, scope items, phases and milestones are, and the phases can be ordered |
| PlanManifest.KeysExactly | internal/project/plan.go:662-671 | keys are valid iff each is a letter and at most 63 letters, digits, underscores and hyphens, and no two are the same |
| PlanManifest.PhasesExactly | internal/project/plan.go:227-247 | a phase is valid iff its dates are in order and its dependencies are other phases of the plan, none twice |
| PlanManifest.MilestonesExactly | internal/project/plan.go:249-270 | a milestone is valid iff it is named and dated and what it names is in the manifest |
| PlanManifest.CheckKeys | internal/project/plan.go:662-671 | accepts exactly the lists of well-formed, distinct keys |
| PlanManifest.CheckDependencies | internal/project/plan.go:237-243 | accepts exactly distinct dependencies on other phases of the plan |
| PlanManifest.ValidPlanHasOrder | internal/project/plan.go:231-247 | the phases of an accepted manifest can be listed with every phase after all it depends on |
| PlanRuns.NewProjectIsValid | internal/project/store.go:95-199 | a new project with its plan satisfies the invariant, beside whatever the review tables hold |
| PlanRuns.PlanStepKeeps | internal/project/plan.go:429-641 | every call on a project, and every review call of anybody, keeps the project invariant |
| PlanRuns.ReviewCallsRun | internal/project/plan.go:404-412 | to the review tables every run of a project is a run of review calls, so what holds of all those runs holds there |
| PlanSafety.ReviewFrame | internal/project/plan.go:404-412 | whatever the review protocol adds leaves the project invariant in place |
| PlanSafety.StoreManifestKeeps | internal/project/plan.go:333-427 | a plan revision stores its manifest under a new revision and keeps the invariant |
| PlanSafety.NextRevisionIsFresh | internal/project/plan.go:383-412 | the revision a plan revision adds has no manifest before and is known afterwards |
| PlanGuarantees.RevisedPlanIsTarget | internal/project/plan.go:383-412 | an accepted plan revision is the latest, a draft without open request, and the next to be applied, with the manifest it was given; the plan in effect stays |
| PlanExact.RevisePlanExactly | internal/project/plan.go:333-427 | a plan revision is accepted iff the manifest is valid, its deliverables exist in the project, the row version is the expected one and no rule vetoes; it adds the revision with its manifest |
| PlanExact.ApplyAcceptsExactly | internal/project/plan.go:436-502 | an application is accepted iff the row version is the expected one and the target, named or last, is certified, and in effect or keeps every phase with cost and every milestone with a decision |
| PlanExact.ProjectionExactly | internal/project/plan.go:528-607 | every phase and milestone of the manifest with all its fields: status kept or not started, milestones pending, the next generation |
| PlanExact.PlanInEffectIsCertified | internal/project/decision.go:361-375 | after every run the plan in effect was approved by an assigned approver after an assigned review, neither by its author |
| PlanSafety.ApplyPlanKeeps | internal/project/plan.go:429-641 | an application keeps the invariant: approved plan in effect, counted generations, exact projection, attached costs, sound gate decisions |
| PlanSafety.ApplicationShape | internal/project/plan.go:436-502 | an accepted application targets a valid, approved revision with a manifest; it changes nothing if that one is in effect, and projects it otherwise, dropping no row that is still referred to |
| PlanSafety.ProjectPhases | internal/project/plan.go:528-569 | after an application the phases are exactly the manifest's, with their dependencies and the statuses of those that survive |
| PlanSafety.ProjectMilestones | internal/project/plan.go:571-607 | after an application the milestones are exactly the manifest's, all pending, at the new generation |
| PlanGuarantees.ApplicationProjects | internal/project/plan.go:489-606 | the target is the approved plan in effect, the generation counts one more application (none if it was in effect), keys are projected exactly, statuses survive |
| PlanGuarantees.ApplyTwice | internal/project/plan.go:489-502 | applying the same revision again changes nothing |
| PlanGuarantees.ReachablePlan | internal/project/decision.go:361-375 | after every run the plan in effect is approved, the generation equals the number of applications, and phases and milestones are exactly its own |
| PlanRuns.CollectSound | internal/project/milestone.go:140-183 | a complete collection has one row for each deliverable key and no other, each current, approved and not written by the actor |
| PlanRuns.AcceptRecords | internal/project/milestone.go:28-198 | an acceptance that changes anything passed every check and records one decision with exactly the collected evidence |
| PlanExact.AcceptExactly | internal/project/milestone.go:28-198 | a milestone is accepted iff the actor is not the author of the plan and its last decision still stands, or a new one may be taken without veto: no further rules, and every deliverable a product of its own, required and found approved, not written by the actor |
| PlanExact.AcceptedStands | internal/project/milestone.go:74-198 | whoever is told that a milestone is accepted is told of a decision whose evidence is complete, approved and latest; the last one there, or their own |
| PlanExact.CollectExactly | internal/project/milestone.go:140-183 | evidence can be collected iff each deliverable delivers a product of its own |
| PlanRuns.AcceptMilestoneKeeps | internal/project/milestone.go:28-198 | acceptance keeps every gate decision sound: independent of the plan's author, one row per deliverable, each on a stored revision with its hash that the decider did not write |
| PlanGuarantees.AcceptTwice | internal/project/milestone.go:74-104 | accepting again while the evidence is current returns the decision just recorded and changes nothing |
| PlanGuarantees.CompletionGate | internal/project/phase.go:73-98 | a phase completes only if each of its milestones has, in the plan in effect, a decision by someone other than the plan's author, with one row per deliverable, each naming the latest revision of an approved product that the decider did not write; and that revision is certified iff the product has not drifted |
| PlanGuarantees.ReachableCompletion | internal/project/phase.go:73-98 | the same after every run of reviews, a new project, and every run of the project |
| PlanGuarantees.GuardedEvidence | internal/project/phase.go:73-98 | the evidence for a product that had not drifted and was revised only in draft is certified, in every later completion |
| PlanExact.TransitionExactly | internal/project/phase.go:51-172 | a phase moves iff it opens with completed dependencies or completes with passed milestones, and facts and rules allow it; only its status changes |
| PlanGuarantees.NeverDeadlocked | internal/project/phase.go:104-112 | while a phase is not completed, some phase has an allowed transition that its dependencies do not refuse |
| PlanGuarantees.CanBeCompleted | internal/project/phase.go:31-35 | with every milestone passed, transitions alone complete all phases, in exactly as many calls as there are steps left |
| PlanGuarantees.MovesAreRanks | internal/project/phase.go:174-181 | over every run in which a phase exists, its accepted transitions equal the steps of its life cycle it has gone, so at most two |
| PlanGuarantees.DependenciesStayCompleted | internal/project/phase.go:185-212 | between applications, "a started phase has only completed dependencies" is kept |
| PlanGuarantees.ApplicationOrderExact | internal/project/plan.go:528-569 | an application keeps it iff the manifest gives started phases only completed dependencies |
| PlanGuarantees.CompletedCostsFreeze | internal/economics/store.go:70-82 | after every run a completed phase with cost still exists, is completed, and has the same work and expense records |
| PlanGuarantees.ClosedStep | internal/economics/store.go:281-293 | no single call, not even a plan application, changes a completed phase with cost or its records |
| PlanExact.LogWorkExactly | internal/economics/store.go:63-107 | work is recorded as given iff its phase is active, its hours above nothing and at most 24, its category known |
| PlanExact.RecordExpenseExactly | internal/economics/store.go:274-325 | an expense is recorded as given iff its phase is active, its amount above nothing, its category, type and currency known, and the currency that of the baseline |
| Scenarios.DraftCanBeApproved | internal/project/decision.go:92-235 | any two people who did not write the latest revision of a draft can get it approved between them, in three calls |
| Scenarios.OthersUntouchedByAll | internal/project/decision.go:279-310 | a run of calls about other products leaves a product, its revisions and its requests as they were |
| Scenarios.ReviewOfAnOlderRevision | internal/project/composition_store.go:252-255 | a run that ends with a product in review whose open request is not for its latest revision |
| Scenarios.ApprovedWithoutApproval | internal/project/composition_store.go:252-255 | a run that ends with an approved product about whose latest revision nobody decided |
| Scenarios.KeyRefusedLater | internal/project/decision.go:312-340 | a run in which a decision is taken under a key, the specification revised, and the same call then refused |
| Scenarios.RetiredInReview | internal/project/workproduct.go:210-254 | a run after which the retirement of a product in review is accepted and makes it obsolete |
| Scenarios.RetiredWhenApproved | internal/project/workproduct.go:210-254 | a run after which the retirement of an approved product is accepted and makes it obsolete |
| ProjectScenarios.ManifestCanBeApproved | internal/project/plan.go:333-427 | in every reachable state a valid manifest whose deliverables exist can be stored and approved by three people |
| ProjectScenarios.ManifestCanBePutIntoEffect | internal/project/plan.go:429-641 | and put into effect, if it drops no row that is still referred to: phases with surviving statuses, pending milestones, every other product and all records untouched |
| ProjectScenarios.CompletedWithoutApproval | internal/project/phase.go:73-98 | a run after which the completion of a phase is accepted on an evidence row that is not certified |
| ProjectScenarios.StartedBeforeItsDependency | internal/project/plan.go:528-569 | a run after which an accepted application gives a started phase a dependency that is not completed |
| ProjectStore.Store.constructor | internal/project/store.go:95-199 | creates the project with its draft plan, default manifest and nothing in effect |
| ProjectStore.Store.CreateWorkProduct | internal/project/workproduct.go:31-102 | the new tables and the reply are those of the specified operation |
| ProjectStore.Store.ReviseWorkProduct | internal/project/workproduct.go:106-208 | appends the revision, returns the product to draft and supersedes its request, or refuses, as specified |
| ProjectStore.Store.ReviseSpecification | internal/project/composition_store.go:173-288 | appends the revision and raises the row version only, as specified |
| ProjectStore.Store.RetireWorkProduct | internal/project/workproduct.go:212-267 | retires the product and supersedes its request, or refuses, as specified |
| ProjectStore.Store.CheckAssignments | internal/project/review.go:141-174 | reports the first offending assignment in order, then a missing role |
| ProjectStore.Store.SubmitWorkProduct | internal/project/review.go:102-237 | opens the request, adds every assignment and moves the product, or refuses, as specified |
| ProjectStore.Store.SupersedeOpenReviewRequest | internal/project/review.go:243-252 | supersedes the open requests of the product and no other |
| ProjectStore.Store.CheckDecision | internal/project/decision.go:145-201 | finds the refusal in the order assignment, author, hash, quorum, rules, signature |
| ProjectStore.Store.ApplyDecisionEffect | internal/project/decision.go:279-310 | an approval or a demand for changes closes the request and moves the product, a review moves nothing |
| ProjectStore.Store.RecordDecision | internal/project/decision.go:92-235 | replays, refuses or records the decision, as specified |
| ProjectStore.Store.RevisePlan | internal/project/plan.go:333-427 | stores the revision with its manifest, or refuses, as specified |
| ProjectStore.Store.UpsertPhases | internal/project/plan.go:529-556 | the loop of upserts leaves the listed phases anew with surviving statuses |
| ProjectStore.Store.PutIntoEffect | internal/project/plan.go:512-606 | binds and projects the target, or rolls every write back when a dropped row is still referred to |
| ProjectStore.Store.ApplyPlan | internal/project/plan.go:429-641 | applies the plan, repeats it, or refuses, as specified |
| ProjectStore.Store.CollectEvidence | internal/project/milestone.go:140-183 | collects the evidence in order up to the first problem |
| ProjectStore.Store.AcceptMilestone | internal/project/milestone.go:28-198 | answers with the standing decision, records a new one, or refuses, as specified |
| ProjectStore.Store.TransitionPhase | internal/project/phase.go:51-172 | moves the phase or refuses, as specified |
| ProjectStore.Store.LogWorkRecord | internal/economics/store.go:63-107 | adds the record to an active phase, or refuses |
| ProjectStore.Store.RecordExpense | internal/economics/store.go:274-325 | adds the expense to an active phase in the baseline's currency, or refuses |
| Dispatcher.OldestExact | internal/automation/dispatcher.go:78-83 | selects undispatched, unlocked events in order of age, leaving out only younger ones, and only when the limit is reached |
| Dispatcher.DispatchTakes | internal/automation/dispatcher.go:78-83 | one dispatch takes up to a hundred events, and leaves one out only after a hundred |
| Dispatcher.SelectedExact | internal/automation/dispatcher.go:144-150 | selects claimable, unlocked deliveries, leaving out only younger ones, and only when the batch is full |
| Dispatcher.Engine.DispatchPending | internal/automation/dispatcher.go:71-123 | creates the deliveries of the oldest undispatched events that are not locked and marks them dispatched |
| Dispatcher.Engine.ClaimBatch | internal/automation/dispatcher.go:138-152 | leases exactly the selected deliveries under the token |
| Dispatcher.Engine.Ack | internal/automation/dispatcher.go:238-248 | acknowledges iff the token is the stored one |
| Dispatcher.Engine.Fail | internal/automation/dispatcher.go:258-267 | returns the delivery to the queue or buries it after the last attempt, whoever reports |
| DispatcherRuns.EngineDispatches | internal/automation/dispatcher.go:71-123 | a dispatch by the engine is a step of the system of workers, whatever events are locked |
| DispatcherRuns.EngineClaims | internal/automation/dispatcher.go:135-152 | a claim by the engine under a fresh token is a step of the system of workers, whatever rows are locked |
| DispatcherRuns.HoldEndsExactly | internal/automation/dispatcher.go:135-267 | one step ends a hold iff it is the holder's commit, a report about the delivery by any worker, or a claim of it; any other leaves the row as it is, and a claim is possible only after the lease |
| DispatcherRuns.HeldExactly | internal/automation/dispatcher.go:135-267 | after every run a holder still holds the delivery iff no step of the run was one of those |
| DispatcherRuns.LeaseProtects | internal/automation/dispatcher.go:138-152 | over every run whose claims are made within the lease, the claimer keeps the delivery, unclaimable to others, iff it has not committed and nobody has reported a failure for the delivery |
| DispatcherRuns.FencedLeaseProtects | internal/automation/dispatcher.go:258-267 | if only token holders report failures, within its lease a worker loses the delivery only by its own commit or report |
| DispatcherRuns.LeaseLostInTime | internal/automation/dispatcher.go:258-267 | a run in which a worker with a lease until 61 loses the delivery to a third at 31, because a worker whose lease has run out reports a failure |
| DispatcherRuns.CommitExactly | internal/automation/dispatcher.go:227-252 | an effect is committed exactly when the same step moves its delivery to delivered, and only by the holder of the stored token |
| DispatcherRuns.CommitsOf | internal/automation/dispatcher.go:227-267 | in every run the commits of a delivery are one if it is delivered, plus the failures reported after it was delivered |
| DispatcherRuns.AtMostOnce | internal/automation/dispatcher.go:258-267 | if only token holders report failures, an effect is committed once if delivered and never otherwise |
| DispatcherRuns.NoLeaseTakenAtMostOnce | internal/automation/dispatcher.go:138-152 | if no lease expires while its worker still has the task, commits are single |
| DispatcherRuns.CommittedTwice | internal/automation/dispatcher.go:258-267 | a run with an expired lease and a late failure report commits one effect twice |
| DispatcherRuns.DeadStaysDead | internal/automation/dispatcher.go:258-267 | a dead delivery never changes again, whoever still works on it |
| DispatcherRuns.NoneLost | internal/automation/dispatcher.go:100-112 | a delivery exists in every later state, for the same event and subscription |
| DispatcherRuns.OneDeliveryPerSubscription | internal/automation/dispatcher.go:101-112 | no delivery before the dispatch of an event; after it exactly one for each subscription of its audience and none for any other |
| DispatcherRuns.AudienceAtDispatch | internal/automation/dispatcher.go:102-106 | the audience of an event never changes after its dispatch |
| DispatcherRuns.DeliveredToActive | internal/automation/dispatcher.go:101-112 | in every state after its dispatch exactly the subscriptions that were active for the key of the event at the dispatch have a delivery of it |
| DispatcherRuns.ClaimsAtMostMax | internal/automation/dispatcher.go:138-152 | without lease expiry a delivery is claimed at most five times, the attempts allowed |
| DispatcherRuns.NextKeeps | internal/automation/dispatcher.go:135-187 | every step of any worker keeps the invariant: tokens exactly on leased rows, pending below the attempt limit, dead at it, commits and claims accounted for |
| LaborRates.OverlapIsSharedDay | internal/migrate/sql/0014_project_economics_resources.sql:130-134 | two rates of a level and role overlap iff some day is in both periods |
| LaborRates.FoundIsUnique | internal/economics/evm.go:86-95 | without overlaps at most one rate of a level is in force on a day |
| LaborRates.AcceptedRateEffect | internal/economics/store.go:112-130 | an accepted rate prices exactly the work it is in force for and for which the project has no rate of its own |
| LaborRates.ProjectPriceKept | internal/economics/store.go:112-130 | work priced by a rate of its project keeps that price under every later sequence of accepted and refused rates |
| LaborRates.NewRatePrices | internal/economics/evm.go:86-95 | an accepted rate prices the work it covers by role and day, its last day excluded, if it is the project's, or if it is the system's and there was no rate |
| LaborRates.SetExactly | internal/migrate/sql/0014_project_economics_resources.sql:127-134 | a rate is accepted iff currency and period are well-formed and no day is covered by another rate of its level and role |
| EarnedValue.CountCostProblems | internal/economics/evm.go:215-250 | counts no problem iff every cost up to the date has a price in the baseline's currency |
| EarnedValue.CompleteCostsArePriced | internal/economics/evm.go:77-102 | after a successful validation the zero default for a missing rate is never used, and every price is in the baseline's currency |
| EarnedValue.PlannedValueBounds | internal/economics/evm.go:167-175 | planned value lies between nothing and the plan, and is all of it from the finish on |
| EarnedValue.PlannedValueMonotone | internal/economics/evm.go:167-175 | planned value never decreases with the control date |
| EarnedValue.PhaseBounds | internal/economics/evm.go:141-185 | in every snapshot row planned and earned value lie within the phase's budget, which is the sum of its lines |
| EarnedValue.AllApprovedEarnsAll | internal/economics/evm.go:151-179 | a phase whose deliverables are all approved has earned its whole budget |
| EarnedValue.GroupedIsFiltered | internal/economics/evm.go:77-102 | a grouped sum, read with zero for a missing group, is the filtered sum |
| EarnedValue.SnapshotTotals | internal/economics/evm.go:253-298 | the project totals are within half a cent per phase of the exact totals; variances are differences; indices are missing iff their denominator is zero; with earned value at least the cost the estimate stays within the budget |
| EarnedValue.TotalsNear | internal/economics/evm.go:261-281 | the sums of rounded phase values stay within half a cent per phase of the exact sums |
| EarnedValueExact.ExpenseCounts | internal/economics/evm.go:95-100 | an expense adds its amount to the actual cost of its phase from its date on, and to nothing else |
| EarnedValueExact.WorkCounts | internal/economics/evm.go:77-95 | work adds its hours at the rate of its role and day to the cost of its phase from its date on |
| EarnedValueExact.LinkCounts | internal/economics/evm.go:153-162 | a link adds its weight to its phase, and to the approved weight only if its product is approved |
| EarnedValueExact.LineCounts | internal/economics/evm.go:143-149 | a budget line adds its plan and its limit to the row of its phase |
| EarnedValueExact.PlannedExactly | internal/economics/evm.go:167-175 | planned value is none before the start, all from the finish on, and between them the nearest cent of the share of days gone by |
| EarnedValueExact.CostExactly | internal/economics/evm.go:176-176 | the actual cost of a row is the nearest cent of the exact cost |
| EarnedValueExact.EarnedExactly | internal/economics/evm.go:177-179 | earned value is the nearest cent of the budget by the approved share of the weight, and none without weights |
| EarnedValueExact.NothingApprovedEarnsNothing | internal/economics/evm.go:151-162 | without an approved deliverable a phase has earned nothing |
| EarnedValueExact.SnapshotExactly | internal/economics/evm.go:253-308 | version, currency and rows are those of the approved baseline; variances, indices to the nearest ten-thousandth, the estimate to the nearest cent, and the marks of limits exceeded |
| EarnedValueExact.BudgetConserved | internal/economics/evm.go:143-149 | if every line names a phase, the budget at completion is the sum over the phases |
| EarnedValue.Aggregate | internal/economics/evm.go:253-308 | the loops sum the rounded phase values and mark exactly the phases over their limit |
| EarnedValue.ComputeEarnedValue | internal/economics/evm.go:124-209 | computes the snapshot, or reports a missing baseline or incomplete costs |
| EarnedValue.GateAgreesWithSnapshot | internal/economics/gate.go:57-77 | the facts of the phase gate, computed by filtered sums, equal the cost, limit and earned value of the snapshot row |
| EarnedValue.GateAppliesTogether | internal/economics/gate.go:37-56 | the gate is not applicable, or incomplete, exactly when the snapshot is |
| Economics.ApprovalInForce | internal/economics/store.go:223-269 | an approved version is the only one in force, not approved by its author, with the lines that were drafted |
| Economics.DraftKeeps | internal/economics/store.go:173-209 | a draft leaves the version in force as it is |
| Economics.LinkMoves | internal/economics/store.go:329-352 | after linking, a product weighs in the named phase only, and every other link is as before |
| Economics.CreateExactly | internal/economics/store.go:173-209 | a baseline is drafted iff its currency, categories, limits and phases are right and no line comes twice |
| Economics.ApproveExactly | internal/economics/store.go:223-269 | a version is approved iff it is not approved and the approver is not its author; the one before is superseded, the others stay |
| Economics.LinkExactly | internal/economics/store.go:329-352 | a product is linked iff it and the phase exist and the weight is above nothing |
| Economics.CostStore.SetLaborRate | internal/economics/store.go:112-168 | adds the rate, or refuses an overlap, an empty period or a currency that is not three capital letters |
| Economics.CostStore.CreateCostBaseline | internal/economics/store.go:173-209 | adds a draft with all its lines, or leaves nothing behind |
| Economics.CostStore.ApproveCostBaseline | internal/economics/store.go:223-269 | replaces the version in force, or refuses |
| Economics.CostStore.LinkPhaseDeliverable | internal/economics/store.go:329-352 | adds or moves the link |
| InputVersions.QuietWrite | internal/migrate/sql/0023_work_product_retired_event.sql:7-17 | a write whose event does not advance the version, the creation of a specification among them, changes no reading of the computation |
| InputVersions.WriteKeepsKeys | internal/migrate/sql/0014_project_economics_resources.sql:222-233 | every write keeps the phases distinct and the links on existing work products |
| InputVersions.AdvancesExactly | internal/migrate/sql/0023_work_product_retired_event.sql:7-17 | which writes advance the version, one by one |
| InputVersions.NewPlanLeaves | internal/project/plan.go:528-569 | a new plan keeps exactly the links and budget lines of its phases and raises the generation |
| InputVersions.WritesLeave | internal/economics/store.go:63-352 | what each write of the cost tables leaves in the ledger |
| LedgerFollows.StatusesFollow | internal/project/decision.go:279-310 | every review call changes the statuses of a project's products as the write that stands for it, which is one the ledger accepts |
| LedgerFollows.RunFollows | internal/project/decision.go:279-310 | after every run of calls the ledger that took their writes has the statuses of the review tables |
| InputVersions.SameEvm | internal/economics/evm.go:124-209 | ledgers with the same readings have the same earned value at every date |
| Metrics.RecordedIsTyped | internal/metrics/registry.go:93-160 | a recorded row has a value iff its quality says so, and the unit of its metric |
| Metrics.RecordExactly | internal/metrics/registry.go:93-160 | an observation is recorded iff its metric is defined, it has a value or a reason as its quality demands, and its unit fits, filled in if none is stated |
| Metrics.LatestIndex | internal/metrics/registry.go:166-198 | the newest observation by the time it was computed for, then by insertion; none iff there is none |
| Metrics.GateBlockers | internal/metrics/registry.go:236-269 | lists exactly the required metrics that are missing or not valid now |
| Metrics.ReportedValidExactly | internal/metrics/registry.go:212-228 | an observation is reported valid iff it was recorded valid, is not too old, and has the present version, baseline and generation |
| Collector.RecordSnapshot | internal/metrics/collector.go:79-125 | records every metric of every phase and of the project |
| Collector.RecordUnavailable | internal/metrics/collector.go:139-177 | records every phase metric as missing |
| Collector.PhaseRowRecorded | internal/metrics/registry.go:93-160 | the registry accepts the rows of a phase as they are, with their value and the baseline's currency |
| Collector.ProjectRowRecorded | internal/metrics/collector.go:98-126 | the registry accepts the rows of the project as they are, an index without denominator as missing |
| Collector.MissingRowRecorded | internal/metrics/collector.go:159-175 | the registry accepts the rows that report missing data, in the stated currency or else in EUR |
| Collector.NextKeeps | internal/metrics/collector.go:42-136 | every step of any collector or writer keeps the invariant: what a collection has read at the present version is what the inputs say |
| Collector.ValidMeansComputed | internal/metrics/collector.go:68-136 | whatever writers commit between its reads, an observation recorded valid under version v holds the values computed from the inputs at v |
| Collector.ValidIsInSnapshot | internal/metrics/collector.go:28-126 | a valid observation of planned value, actual cost, earned value, variance or index has that value of the snapshot computed from the inputs of its version |
| Collector.PhaseRowsPresent | internal/metrics/collector.go:79-96 | the rows of a snapshot have each phase's planned value, actual cost and earned value under their names |
| Collector.ProjectRowsPresent | internal/metrics/collector.go:98-126 | and the variances and indices of the project, an index without value as having no data |
| Collector.OpenGateShowsSnapshot | internal/metrics/registry.go:236-269 | a gate that is open shows planned value, actual cost and earned value of the phase as the present inputs give them, at most a day old |
| Collector.NoBaselineIsRecorded | internal/metrics/collector.go:62-66 | without an approved baseline every metric of every phase is recorded as having no data |
| Collector.IncompleteIsRecorded | internal/metrics/collector.go:67-70 | with incomplete costs, as having failed |
| Collector.StaleIsAbandoned | internal/metrics/collector.go:71-77 | a collection that finds the version moved on commits nothing |
| Collector.ReportedMeansCurrent | internal/metrics/registry.go:212-216 | an observation still reported valid equals recomputation from the present inputs at its time |
| Collector.OpenGateIsCurrent | internal/metrics/registry.go:236-269 | when no required metric of a phase blocks, each one's latest observation is within its age and equals recomputation from the present inputs |
| Collector.VersionSuffices | internal/metrics/registry.go:212-216 | an observation of the present version also has the present baseline and generation |
| Trace.RowsExact | internal/project/trace.go:145-166 | level n of the query has exactly the rows that came along a way of n links, flagged nowhere before, with the nodes of the way as their array; a row is flagged iff the last of these is among the others; levels end at 99 |
| Trace.WayHasRow | internal/project/trace.go:193-214 | along every way that is flagged nowhere before its last link the row is there, so along every way without circles |
| Trace.QueryExact | internal/project/trace.go:193-214 | the rows of all rounds name exactly the links that start within 99 links of the root, in any graph |
| Trace.LeastLevelIsDistance | internal/project/trace.go:145-166 | the least level of a link is its distance from the root |
| Trace.ReportExact | internal/project/trace.go:136-183 | the report names exactly the links whose source is within 99 links, with the distance plus one as least depth, ordered by depth |
| Trace.InOrderExactly | internal/project/trace.go:166-166 | in order means by depth, then by the code of the source, then by the code of the target |
| Trace.ReportFlags | internal/project/trace.go:145-155 | the report has exactly the entries that some way leads to, each flagged iff its link leads back to a work product on the way; the first link of a way is never flagged |
| Trace.ChainIsCutOff | internal/project/trace.go:193-214 | along a chain a revision of the first work product marks the first hundred links and no other |
| Trace.UnmarkedDependent | internal/project/trace.go:193-214 | a chain of 101 links whose last one depends on the first work product and is never marked |
| Trace.TraceStore.Query | internal/project/trace.go:194-205 | the rounds end, on every finite graph, with all their rows |
| Trace.TraceStore.PropagateSuspect | internal/project/trace.go:193-214 | marks exactly the links whose target depends on the revised product through at most 99 links, changes nothing else, and returns their number |
| Trace.TraceStore.TraverseTraceability | internal/project/trace.go:136-183 | reports every entry, once for each way, ordered by depth and then by the codes of source and target; refuses an unknown root |
| Calendar.FirstDayIsNewYear | internal/automation/cron.go:81-86 | the calendar built day by day puts each 1 January where the count of leap years puts it |
| Calendar.EpochIsThursday | internal/automation/cron.go:86-86 | day 719162 is Thursday, 1 January 1970 |
| Calendar.ComesRound | internal/automation/cron.go:78-92 | a day that every year has comes round among any 366 days in a row |
| Calendar.CalendarRepeats | internal/automation/cron.go:81-92 | every date and weekday comes round after 146097 days, 400 years later |
| Calendar.DateExactly | internal/automation/cron.go:87-88 | every date lies where the days of the months before it put it |
| Calendar.WeekdayGoesRound | internal/automation/cron.go:89-89 | each day has the next weekday, Sunday after Saturday |
| CronFields.SplitJoins | internal/automation/cron.go:25-25 | splitting a field at commas loses nothing |
| CronFields.WordsApart | internal/automation/cron.go:56-56 | texts on both sides of white space are split apart |
| CronFields.WordsOfJoined | internal/automation/cron.go:56-56 | words written with a blank between them are read back |
| CronFields.AddSteps | internal/automation/cron.go:31-33 | adds exactly the multiples of the step from the lower bound |
| CronFields.ParseField | internal/automation/cron.go:20-43 | accepts exactly the fields that are written correctly and admits exactly the values they mean |
| CronFields.ParseDecimal | internal/automation/cron.go:27-36 | a number printed in decimal, with or without a sign, is read back if it fits into 64 bits, and is no number otherwise |
| CronFields.NumbersMean | internal/automation/cron.go:25-40 | a list of numbers is a field that admits exactly these |
| CronFields.StepMeans | internal/automation/cron.go:26-34 | an asterisk with a step admits the lower bound and every n-th value after it |
| Cron.ParseExpression | internal/automation/cron.go:55-79 | accepts exactly the texts of five correct fields between white space; a minute matches iff each field means its part of the date and time |
| Cron.DailyMeans | internal/automation/cron.go:55-93 | minute and hour followed by three asterisks mean this time of every day |
| Cron.NextMatch | internal/automation/cron.go:81-94 | returns the least whole minute strictly after the instant that satisfies every field, and fails iff there is none in 366 days |
| Cron.NeverFailsExactly | internal/automation/cron.go:78-94 | for every expression the search succeeds from every start iff each stretch of 366 days has an admitted day, which is decided by the stretches that start within 146097 days |
| Cron.NeverFailsAnyWeekday | internal/automation/cron.go:78-94 | if all weekdays are admitted, however that is written, it never fails iff an admitted day exists in an admitted month of every year |
| Cron.LeapDayMissed | internal/automation/cron.go:82-93 | without such a day the search fails when it starts as a common year begins that another common year follows |
| Cron.LeapDayMissedIn2025 | internal/automation/cron.go:82-93 | the 29th of February is not found from the last moment of 2024 |
| Cron.EarlyDayNeverFails | internal/automation/cron.go:78-94 | if all weekdays are admitted, an admitted day of month up to 28 is enough |
| Conditions.EvaluateIsMeaning | internal/automation/condition.go:79-119 | without errors, evaluation is plain boolean semantics |
| Conditions.VerdictStands | internal/automation/condition.go:81-103 | a verdict does not depend on the leaves that err |
| Conditions.FirstThatFails | internal/automation/condition.go:81-91 | a conjunction has the result of its first sub-condition that is not true |
| Conditions.FirstThatHolds | internal/automation/condition.go:92-103 | a disjunction has the result of its first sub-condition that is not false |
| Conditions.DeMorgan | internal/automation/condition.go:79-119 | De Morgan's laws hold, with the same error where there is one |
| Conditions.DoubleNegation | internal/automation/condition.go:104-112 | double negation changes nothing, errors included |
| Rules.EnforceRules | internal/automation/rules.go:79-124 | accepts iff no mandatory rule errs or is applicable and unsatisfied; names the first that blocks; leaves the remarks of the advisory rules |
| Rules.MandatoryRulesImply | internal/automation/rules.go:79-124 | where all conditions can be judged, a command passes iff every mandatory rule holds as an implication |
| Rules.ErrorsReject | internal/automation/rules.go:85-116 | a mandatory rule that cannot be judged rejects the command |
| Rules.OrderIrrelevant | internal/automation/rules.go:46-51 | the verdict does not depend on the order of the rules |
| Rules.AdvisoryIrrelevant | internal/automation/rules.go:85-116 | adding or removing advisory rules does not change the verdict |
| Rules.RemarksExact | internal/automation/rules.go:98-122 | the remarks are exactly those of the applicable advisory rules that fail or err |
| Rules.SeededRuleBlocks | internal/migrate/sql/0013_automation_engine.sql:138-141 | the seeded rule blocks iff the status is obsolete |
| Rules.ObsoleteIsVetoed | internal/project/workproduct.go:132-141 | whatever other rules there are, a command on an obsolete product is rejected |
| Canonical.PayloadInjective | internal/project/store.go:284-304 | a payload without NUL shares its preimage with no other payload, whatever that one contains |
| Canonical.NulBreaksInjectivity | internal/project/store.go:284-304 | exactly the payloads with a NUL in the body, or in the title after its first character, share their preimage with another of the same code, type and metadata |
| Canonical.PreimageExact | internal/project/store.go:284-304 | with code, type and metadata free of NUL, two preimages are equal iff the payloads agree on everything but where the title ends |
| Canonical.NulCollision | internal/project/store.go:284-304 | two different requirements with the same preimage |
| Canonical.SortedUnique | internal/project/composition.go:114-114 | there is one sorted arrangement, so any correct sort gives the same string |
| Canonical.FirstDifferenceDecides | internal/project/composition.go:114-114 | strings are sorted by their first difference, a string before its continuations |
| Canonical.ElementsFaithful | internal/project/composition.go:105-118 | for fields without ':' and newline the preimages are equal iff the element multisets are |
| Composition.HasSectionCycle | internal/project/composition.go:120-134 | true iff the chain of parents never ends; terminates |
| Composition.Validate | internal/project/composition.go:49-103 | accepts exactly the valid manifests, whose stated hash is 32 bytes long and that of the placed elements |
| Composition.OccurrencesExactly | internal/project/composition.go:78-97 | occurrences are accepted iff each is identified, placed, counted and names product, revision and hash, and no two have the same id |
| Composition.SectionsExactly | internal/project/composition.go:54-63 | sections are accepted iff each is named, titled and counted, and no two have the same id |
| Composition.AcceptedIsForest | internal/project/composition.go:65-76 | in an accepted manifest every chain of parents ends at a root |
| Composition.SameHashSameElements | internal/project/composition.go:78-102 | two accepted manifests state the same elements hash iff they place the same elements, equally often |

## Left out

- HTTP handlers, sessions, configuration, logging, the web interface, embeddings, repositories, the scheduler and the workflow engine.
- Audit rows and event payloads: nothing reads them back, except that `Rules` models the remarks of advisory rules and `InputVersions` the event of each writer.
- Deeper reads of permissions: the assignments that `Submit` may make are the parameter `eligible`; other permission checks happen before these calls.
- Races inside one project transaction under read committed: each project call is one step.
- Hashing itself: a hash is its preimage.
- Names, dates and descriptions of phases and milestones are not part of the projection in `Plan`; `EarnedValue` has the dates of its own phases.
- A manifest milestone and its row are identified by the key: a row with decisions is never deleted, so the key determines the row id wherever a decision refers to it.
- Ties between gate decisions and between observations of the same instant are resolved by insertion; the original compares random ids for gate decisions.
- ProjectStore.Store.AcceptMilestone: collects the evidence before it inserts the decision, where the original inserts first and rolls back on a problem; both leave the same tables.
- ProjectStore.Store.RevisePlan: the hash of the new revision is a parameter, and the template keys of the manifest are not modelled.
- ProjectStore.Store.TransitionPhase: the outcomes of the economic facts, the metric blockers and the rules are two parameters; `EarnedValue.GateAgreesWithSnapshot`, `Metrics.GateBlockers` and `Rules` prove what they are.
- EarnedValue.PlannedValueBounds: the quotient is exact and rounded once to cents; PostgreSQL first rounds the quotient of `numeric` to a limited number of digits, which can differ at exact half cents.
- EarnedValue.Aggregate: indices are in ten-thousandths and the estimate in cents, rounded once from exact fractions.
- CronFields.AddSteps: integers do not overflow here; in the original, a step of 2^63-1 from the lower bound 1 also adds two negative values.
- CronFields.ParseField: a step near 2^63 overflows in the original and adds negative values, which no part of a date is compared with; here integers do not overflow.
- Trace.TraceStore.TraverseTraceability: codes are compared character by character, where the database uses its collation; acknowledging a link only clears its mark and is left out.
- Metrics.RecordedIsTyped: enumerations and the typed columns are not modelled; values are whole numbers of the metric's smallest unit.
- InputVersions.QuietWrite: covers the writers listed in `Write`; a write is modelled with its effect on the ledger, and its own guards only as far as they matter to that effect.
- Canonical.NulBreaksInjectivity: payloads with a NUL in the code are not among those compared; `PayloadInjective` has none of these restrictions.
