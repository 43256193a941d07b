/**
 What a project can reach: any valid manifest that drops nothing recorded can be put into effect. From this come a run that
 completes a phase on a revision that nobody approved, and one in which a new plan gives a started phase an open dependency.
 */
module ProjectScenarios {
  import opened Wrappers
  import opened Review
  import opened ReviewSafety
  import opened ReviewRuns
  import opened ReviewExact
  import opened ReviewDrift
  import opened PhaseGraph
  import opened PlanManifest
  import opened Plan
  import opened PlanSafety
  import opened PlanRuns
  import opened PlanGuarantees
  import opened Scenarios

  // ---------------------------------------------------------------- composing runs

  lemma {:induction false} PlanRunConcat(db: PlanDb, calls: seq<PlanCall>, more: seq<PlanCall>)
    requires Operable(db)
    ensures PlanRun(db, calls + more) == PlanRun(PlanRun(db, calls), more)
    decreases |calls|
  {
    if calls == [] {
      assert calls + more == more;
    } else {
      assert (calls + more)[1..] == calls[1..] + more;
      PlanRunConcat(PlanNext(db, calls[0]), calls[1..], more);
    }
  }

  lemma PlanRunOnce(db: PlanDb, call: PlanCall)
    requires Operable(db)
    ensures PlanRun(db, [call]) == PlanStep(db, call)
  {
    assert [call][1..] == [];
  }

  function OnReviews(calls: seq<Call>): seq<PlanCall> {
    if calls == [] then [] else [OnReview(calls[0])] + OnReviews(calls[1..])
  }

  /** A run of review calls alone changes the review tables alone. */
  lemma {:induction false} ReviewsOnly(db: PlanDb, calls: seq<Call>)
    requires Operable(db)
    ensures PlanRun(db, OnReviews(calls)) == db.(review := Run(db.review, calls))
    decreases |calls|
  {
    if calls != [] {
      assert OnReviews(calls)[1..] == OnReviews(calls[1..]);
      ReviewsOnly(PlanNext(db, OnReview(calls[0])), calls[1..]);
    }
  }

  // ---------------------------------------------------------------- every valid manifest can be put into effect

  /** The plan by this author with manifest m is in effect, projected from what was there before. */
  ghost predicate InEffect(db: PlanDb, after: PlanDb, m: Manifest, author: Id) {
    && after.effective.Some? && after.effective.value in after.manifests && after.manifests[after.effective.value] == m
    && KnownRevision(after.review, after.effective.value) && AuthorOf(after.review, after.effective.value) == author
    && after.generation == db.generation + 1
    && PhasesProject(after, m) && StatusesSurvive(db, after)
    && MilestonesProject(after, m) && (forall k | k in after.milestones :: after.milestones[k].status == Pending)
    && after.gates == db.gates && after.work == db.work && after.expenses == db.expenses
    && after.project == db.project && after.plan == db.plan
  }

  ghost predicate OthersAlone(db: PlanDb, after: PlanDb) {
    forall p | p in db.review.products && p != db.plan :: Untouched(db.review, after.review, p)
  }

  ghost predicate Storable(db: PlanDb, m: Manifest) {
    ValidManifest(m) && forall i | 0 <= i < |m.deliverables| :: DeliverableExists(db, m.deliverables[i])
  }

  ghost function ReviseNow(db: PlanDb, author: Id, m: Manifest): PlanCall
    requires Operable(db)
  {
    OnRevise(author, db.review.products[db.plan].rowVersion, "h", m, false)
  }

  ghost function ApplyNow(db: PlanDb): PlanCall
    requires Operable(db)
  {
    OnApply(None, db.review.products[db.plan].rowVersion)
  }

  /** The latest revision of the plan is approved and has this manifest, which was never in effect. */
  ghost predicate Applicable(db: PlanDb, m: Manifest, author: Id) {
    && Operable(db) && PlanInvariant(db)
    && var r := Latest(db.review, db.plan);
       && RevisionApproved(db.review, r) && r in db.manifests && db.manifests[r] == m && db.effective != Some(r)
       && KnownRevision(db.review, r) && AuthorOf(db.review, r) == author
  }

  /** The manifest keeps every row that something recorded refers to. */
  predicate DropsNothing(db: PlanDb, m: Manifest) {
    !DropsCostedPhase(db.phases, db.work, db.expenses, m) && !DropsDecidedMilestone(db.milestones, db.gates, m)
  }

  lemma ApplicableIsAccepted(db: PlanDb, m: Manifest, author: Id)
    requires Applicable(db, m, author) && DropsNothing(db, m)
    ensures PlanNext(db, ApplyNow(db)) == Project(db, Latest(db.review, db.plan), m) && PlanAnswer(db, ApplyNow(db)).1.PlanApplied?
  {
    assert Target(db, None) == Some(Latest(db.review, db.plan));
  }

  lemma ApplicableIsValid(db: PlanDb, m: Manifest, author: Id)
    requires Applicable(db, m, author)
    ensures db.plan in db.review.products && ValidManifest(m)
  {
  }

  lemma AppliedIsInEffect(db: PlanDb, m: Manifest, author: Id)
    requires Applicable(db, m, author)
    ensures InEffect(db, Project(db, Latest(db.review, db.plan), m), m, author)
  {
    ApplicableIsValid(db, m, author);
    var after := Project(db, Latest(db.review, db.plan), m);
    ProjectPhases(db, Latest(db.review, db.plan), m);
    ProjectMilestones(db, Latest(db.review, db.plan), m);
    ProjectedStatuses(db, after, m);
    forall k | k in after.milestones ensures after.milestones[k].status == Pending {
      ListedMilestone(m, k);
    }
  }

  lemma BumpLeavesOthers(db: Db, p: Id)
    requires p in db.products
    ensures forall q | q in db.products && q != p :: Untouched(db, Bump(db, p), q)
  {
  }

  lemma AddRevisionLeavesOthers(db: Db, p: Id, revision: Revision)
    requires p in db.products
    ensures forall q | q in db.products && q != p :: Untouched(db, AddRevision(db, p, revision), q)
  {
  }

  lemma ApprovalLeavesOthers(db: Db, project: Id, p: Id, reviewer: Id, approver: Id)
    requires Schema(db)
    ensures forall q | q in db.products && q != p :: Untouched(db, Run(db, ApprovalCalls(project, p, reviewer, approver)), q)
  {
    forall q | q in db.products && q != p ensures Untouched(db, Run(db, ApprovalCalls(project, p, reviewer, approver)), q) {
      OthersUntouchedByAll(db, ApprovalCalls(project, p, reviewer, approver), q);
    }
  }

  lemma ApplicableTakesEffect(db: PlanDb, m: Manifest, author: Id)
    requires Applicable(db, m, author) && DropsNothing(db, m)
    ensures var after := PlanNext(db, ApplyNow(db)); InEffect(db, after, m, author) && OthersAlone(db, after)
  {
    ApplicableIsAccepted(db, m, author);
    AppliedIsInEffect(db, m, author);
    BumpLeavesOthers(db.review, db.plan);
  }

  /** The rows of the project, as opposed to the review tables and the stored manifests. */
  predicate SameRows(db: PlanDb, after: PlanDb) {
    && after.project == db.project && after.plan == db.plan && after.generation == db.generation && after.effective == db.effective
    && after.phases == db.phases && after.milestones == db.milestones && after.gates == db.gates
    && after.work == db.work && after.expenses == db.expenses
  }

  /** A plan revision whose review is about to begin. */
  ghost predicate Stored(db: PlanDb, m: Manifest, author: Id) {
    && ProjectInvariant(db) && db.review.products[db.plan].status == Draft
    && var r := Latest(db.review, db.plan);
       && r in db.manifests && db.manifests[r] == m && db.effective != Some(r)
       && KnownRevision(db.review, r) && AuthorOf(db.review, r) == author
  }

  lemma ManifestCanBeStored(db: PlanDb, m: Manifest, author: Id)
    requires ProjectInvariant(db) && Storable(db, m)
    ensures PlanNext(db, ReviseNow(db, author, m)) == StoreManifest(db, Revision("h", author), m)
  {
  }

  lemma StoredManifest(db: PlanDb, m: Manifest, author: Id)
    requires ProjectInvariant(db) && ValidManifest(m)
    ensures var after := StoreManifest(db, Revision("h", author), m);
            Stored(after, m, author) && SameRows(db, after) && OthersAlone(db, after)
  {
    var revision := Revision("h", author);
    StoreManifestKeeps(db, revision, m);
    AddRevisionKeeps(db.review, db.plan, revision);
    StoredIsLatest(db, revision, m);
    AddRevisionLeavesOthers(db.review, db.plan, revision);
  }

  lemma StoredIsLatest(db: PlanDb, revision: Revision, m: Manifest)
    requires PlanInvariant(db)
    ensures var after := StoreManifest(db, revision, m);
            var r := Latest(after.review, db.plan);
            r in after.manifests && after.manifests[r] == m && db.effective != Some(r) && after.effective == db.effective
  {
    NextRevisionIsFresh(db, revision);
    if db.effective.Some? { EffectiveIsStored(db); }
  }

  lemma EffectiveIsStored(db: PlanDb)
    requires PlanInvariant(db) && db.effective.Some?
    ensures db.effective.value in db.manifests
  {
  }

  /** Two people other than its author make a stored plan applicable. */
  lemma StoredCanBeApproved(db: PlanDb, m: Manifest, author: Id, reviewer: Id, approver: Id)
    requires Stored(db, m, author) && reviewer != author && approver != author
    ensures var after := PlanRun(db, OnReviews(ApprovalCalls(db.project, db.plan, reviewer, approver)));
            Applicable(after, m, author) && SameRows(db, after) && OthersAlone(db, after)
  {
    var calls := ApprovalCalls(db.project, db.plan, reviewer, approver);
    DraftCanBeApproved(db.review, db.plan, reviewer, approver);
    ReviewsOnly(db, calls);
    PlanRunKeeps(db, OnReviews(calls));
    ApprovalLeavesOthers(db.review, db.project, db.plan, reviewer, approver);
  }

  lemma OthersAloneTransitive(a: PlanDb, b: PlanDb, c: PlanDb)
    requires a.plan == b.plan && OthersAlone(a, b) && OthersAlone(b, c)
    ensures OthersAlone(a, c)
  {
    forall p | p in a.review.products && p != a.plan ensures Untouched(a.review, c.review, p) {
      UntouchedTransitive(a.review, b.review, c.review, p);
    }
  }

  lemma InEffectFrom(db: PlanDb, between: PlanDb, after: PlanDb, m: Manifest, author: Id)
    requires SameRows(db, between) && InEffect(between, after, m, author)
    ensures InEffect(db, after, m, author)
  {
  }

  /** Any author and any two other people can have a valid manifest approved, from every reachable state of a project,
      provided its deliverables are products of the project. */
  lemma ManifestCanBeApproved(db: PlanDb, m: Manifest, author: Id, reviewer: Id, approver: Id) returns (calls: seq<PlanCall>)
    requires ProjectInvariant(db) && Storable(db, m) && reviewer != author && approver != author
    ensures var after := PlanRun(db, calls); Applicable(after, m, author) && SameRows(db, after) && OthersAlone(db, after)
  {
    ManifestCanBeStored(db, m, author);
    StoredManifest(db, m, author);
    var stored := PlanNext(db, ReviseNow(db, author, m));
    StoredCanBeApproved(stored, m, author, reviewer, approver);
    var reviews := OnReviews(ApprovalCalls(db.project, db.plan, reviewer, approver));
    calls := [ReviseNow(db, author, m)] + reviews;
    PlanRunOnce(db, ReviseNow(db, author, m));
    PlanRunConcat(db, [ReviseNow(db, author, m)], reviews);
    OthersAloneTransitive(db, stored, PlanRun(db, calls));
  }

  /** And they can put it into effect, provided it drops no row that is still referred to. */
  lemma ManifestCanBePutIntoEffect(db: PlanDb, m: Manifest, author: Id, reviewer: Id, approver: Id) returns (calls: seq<PlanCall>)
    requires ProjectInvariant(db) && Storable(db, m) && reviewer != author && approver != author && DropsNothing(db, m)
    ensures ProjectInvariant(PlanRun(db, calls))
    ensures InEffect(db, PlanRun(db, calls), m, author) && OthersAlone(db, PlanRun(db, calls))
  {
    var before := ManifestCanBeApproved(db, m, author, reviewer, approver);
    calls := before + [ApplyNow(PlanRun(db, before))];
    ApprovedTakesEffect(db, before, m, author);
    PlanRunKeeps(db, calls);
    PlanRunProtocol(db, calls);
  }

  lemma ApprovedTakesEffect(db: PlanDb, before: seq<PlanCall>, m: Manifest, author: Id)
    requires Operable(db) && DropsNothing(db, m)
    requires var approved := PlanRun(db, before); Applicable(approved, m, author) && SameRows(db, approved) && OthersAlone(db, approved)
    ensures var after := PlanRun(db, before + [ApplyNow(PlanRun(db, before))]); InEffect(db, after, m, author) && OthersAlone(db, after)
  {
    var approved := PlanRun(db, before);
    var after := PlanNext(approved, ApplyNow(approved));
    ApplicableTakesEffect(approved, m, author);
    PlanRunAppend(db, before, ApplyNow(approved));
    OthersAloneTransitive(db, approved, after);
    InEffectFrom(db, approved, after, m, author);
  }

  // ---------------------------------------------------------------- one specification under a plan

  const OnePhase: PlanPhase := PlanPhase("p", "p", 0, 0, true, [])
  const OneMilestone: PlanMilestone := PlanMilestone("m", "m", "p", true, ["d"], [])
  const OneDeliverable: Deliverable := Deliverable("d", "d", "1", Some(1), Some(Approved))

  /** One phase, whose milestone demands the product 1, approved. */
  const OneGate: Manifest := Manifest(true, [], [], [OneDeliverable], [OnePhase], [OneMilestone], [])

  lemma OneKey(k: Key)
    requires |k| == 1 && Letter(k[0])
    ensures ValidKeys([k])
  {
  }

  lemma OneGateKeys()
    ensures ValidSections(OneGate)
  {
    OneKey("d");
    OneKey("p");
    OneKey("m");
    assert DeliverableKeys(OneGate) == ["d"] && PhaseKeys(OneGate) == ["p"] && MilestoneKeys(OneGate) == ["m"];
  }

  lemma SinglePhaseOrders(p: PlanPhase)
    requires p.dependsOn == []
    ensures Orderable(GraphOf([p]))
  {
    var g := GraphOf([p]);
    assert GraphOf([p][..|[p]| - 1]) == map[];
    assert g == map[p.key := []];
    assert Ready(g, [p.key][0], [p.key][..0]);
    assert TopologicalOrder(g, [p.key]);
  }

  lemma OneGateIsValid()
    ensures ValidManifest(OneGate)
  {
    OneGateKeys();
    SinglePhaseOrders(OnePhase);
    assert PhaseKeys(OneGate)[0] == "p" && DeliverableKeys(OneGate)[0] == "d";
  }

  /** The plan 0 of the project 0, by author 1. */
  ghost function Fresh(): PlanDb {
    Begun(Start(), 1, 0, "h")
  }

  lemma FreshIsValid()
    ensures ProjectInvariant(Fresh()) && Fresh().plan == 0 && Fresh().project == 0
    ensures Fresh().review.nextId == 1 && Fresh().review.products.Keys == {0} && Fresh().review.products[0].code == "PLAN-001"
    ensures Fresh().phases == map[] && Fresh().milestones == map[] && Fresh().gates == [] && Fresh().generation == 0
  {
    NewProjectIsValid(Start(), 1, 0, "h");
  }

  lemma FreshRun(calls: seq<PlanCall>)
    ensures ProjectInvariant(PlanRun(Fresh(), calls))
  {
    FreshIsValid();
    PlanRunKeeps(Fresh(), calls);
    PlanRunProtocol(Fresh(), calls);
  }

  /** The specification 1 of the project is approved, and the plan not touched yet. */
  ghost predicate SpecificationReady(db: PlanDb) {
    && ProjectInvariant(db) && db.plan == 0 && db.project == 0
    && 1 in db.review.products && db.review.products[1].project == 0
    && db.review.products[1].productType == SpecificationType && db.review.products[1].status == Approved
    && db.phases == map[] && db.milestones == map[] && db.gates == [] && db.generation == 0
  }

  lemma SpecificationAdded()
    ensures var db := Step(Fresh().review, NewSpecification);
            && ReviewInvariant(db) && 1 in db.products && db.products[1] == WorkProduct(0, "S", SpecificationType, Draft, 1)
            && AuthorOf(db, Latest(db, 1)) == 1
  {
    FreshIsValid();
    StepKeeps(Fresh().review, NewSpecification);
    assert "S" != "PLAN-001";
  }

  lemma SpecificationCanBeReady() returns (calls: seq<PlanCall>)
    ensures SpecificationReady(PlanRun(Fresh(), calls))
  {
    var reviews := [NewSpecification] + ApprovalCalls(0, 1, 2, 3);
    calls := OnReviews(reviews);
    FreshIsValid();
    SpecificationAdded();
    DraftCanBeApproved(Step(Fresh().review, NewSpecification), 1, 2, 3);
    RunOnce(Fresh().review, NewSpecification);
    RunConcat(Fresh().review, [NewSpecification], ApprovalCalls(0, 1, 2, 3));
    ReviewsOnly(Fresh(), reviews);
    PlanRunKeeps(Fresh(), calls);
  }

  // ---------------------------------------------------------------- a phase completed on an unapproved revision

  /** The plan with the one gate is in effect, its phase active, its milestone pending, and the specification approved. */
  ghost predicate AtTheGate(db: PlanDb) {
    && db.plan == 0 && db.project == 0
    && db.effective.Some? && db.effective.value in db.manifests && db.manifests[db.effective.value] == OneGate
    && KnownRevision(db.review, db.effective.value) && AuthorOf(db.review, db.effective.value) == 1
    && 1 in db.review.products && db.review.products[1].project == 0
    && db.review.products[1].productType == SpecificationType && db.review.products[1].status == Approved
    && "p" in db.phases && db.phases["p"].status == Active
    && db.milestones == map["m" := MilestoneRow(OneMilestone, db.generation)] && db.gates == []
  }

  lemma OneMilestoneProjects(db: PlanDb)
    requires MilestonesProject(db, OneGate) && forall k | k in db.milestones :: db.milestones[k].status == Pending
    ensures db.milestones == map["m" := MilestoneRow(OneMilestone, db.generation)]
  {
    assert MilestoneKeys(OneGate) == ["m"];
    assert OneGate.milestones[0] == OneMilestone;
    assert db.milestones.Keys == {"m"};
    assert db.milestones["m"].(status := Pending) == MilestoneRow(OneMilestone, db.generation);
  }

  lemma OnePhaseProjects(before: PlanDb, db: PlanDb)
    requires PhasesProject(db, OneGate) && StatusesSurvive(before, db) && before.phases == map[]
    ensures "p" in db.phases && db.phases["p"].status == NotStarted && db.phases["p"].dependsOn == []
  {
    assert OneGate.phases[0] == OnePhase;
    assert OnePhase.key in db.phases;
  }

  lemma ReadyIsStorable(db: PlanDb)
    requires SpecificationReady(db)
    ensures Storable(db, OneGate) && DropsNothing(db, OneGate)
  {
    OneGateIsValid();
  }

  const Opening: PlanCall := OnTransition("p", Active, false, false)

  lemma PhaseOpens(db: PlanDb)
    requires Operable(db) && "p" in db.phases && db.phases["p"].status == NotStarted && db.phases["p"].dependsOn == []
    ensures PlanNext(db, Opening) == db.(phases := db.phases["p" := db.phases["p"].(status := Active)])
  {
  }

  lemma AppliedIsAtTheGate(before: PlanDb, db: PlanDb, phases: map<Key, Phase>)
    requires SpecificationReady(before) && InEffect(before, db, OneGate, 1)
    requires Untouched(before.review, db.review, 1) && "p" in phases && phases["p"].status == Active
    ensures AtTheGate(db.(phases := phases))
  {
    OneMilestoneProjects(db);
  }

  lemma OpenedIsAtTheGate(before: PlanDb, db: PlanDb)
    requires SpecificationReady(before) && InEffect(before, db, OneGate, 1) && OthersAlone(before, db) && Operable(db)
    ensures AtTheGate(PlanNext(db, Opening))
  {
    OnePhaseProjects(before, db);
    PhaseOpens(db);
    AppliedIsAtTheGate(before, db, db.phases["p" := db.phases["p"].(status := Active)]);
  }

  lemma GateCanBeReached() returns (calls: seq<PlanCall>)
    ensures AtTheGate(PlanRun(Fresh(), calls))
  {
    var first := SpecificationCanBeReady();
    var ready := PlanRun(Fresh(), first);
    ReadyIsStorable(ready);
    var second := ManifestCanBePutIntoEffect(ready, OneGate, 1, 2, 3);
    OpenedIsAtTheGate(ready, PlanRun(ready, second));
    calls := first + second + [Opening];
    PlanRunConcat(Fresh(), first, second);
    PlanRunAppend(Fresh(), first + second, Opening);
  }

  function Drifting(db: PlanDb): PlanCall
    requires 1 in db.review.products
  {
    OnReview(ReviseCall(db.review, 1, 5))
  }

  const Accepting: PlanCall := OnAccept(4, "m", 0, false)

  /** The specification drifts under the gate: it stays approved, with a latest revision that nobody was asked about. */
  lemma DriftsAtTheGate(db: PlanDb)
    requires Operable(db) && AtTheGate(db)
    ensures var after := PlanNext(db, Drifting(db));
            AtTheGate(after) && Drifted(after.review, 1) && AuthorOf(after.review, Latest(after.review, 1)) == 5
  {
    SpecificationDrifts(db.review, 1, 5);
    StepSchema(db.review, ReviseCall(db.review, 1, 5));
    KnownGrows(db.review, PlanNext(db, Drifting(db)).review, db.effective.value);
  }

  function DriftedEvidence(review: Db): map<Id, Evidence>
    requires KnownRevision(review, Latest(review, 1))
  {
    map[1 := EvidenceOf(review, 1)]
  }

  lemma NoProblem(db: PlanDb)
    requires 1 in db.review.products && db.review.products[1].project == db.project && db.review.products[1].status == Approved
    requires KnownRevision(db.review, Latest(db.review, 1)) && AuthorOf(db.review, Latest(db.review, 1)) == 5
    ensures ProductFor(OneGate, "d") == Some(1) && EvidenceProblem(db, OneGate, 4, "d").None?
  {
    assert FindDeliverable(OneGate.deliverables, "d") == Some(OneDeliverable);
  }

  lemma CollectsDrifted(db: PlanDb)
    requires 1 in db.review.products && db.review.products[1].project == db.project && db.review.products[1].status == Approved
    requires KnownRevision(db.review, Latest(db.review, 1)) && AuthorOf(db.review, Latest(db.review, 1)) == 5
    ensures Collect(db, OneGate, 4, ["d"]) == Complete(DriftedEvidence(db.review))
  {
    NoProblem(db);
    assert ["d"][..|["d"]| - 1] == [];
    assert Collect(db, OneGate, 4, []) == Complete(map[]);
  }

  function DriftedGate(db: PlanDb): GateDecision
    requires KnownRevision(db.review, Latest(db.review, 1)) && db.effective.Some?
  {
    FreshGate(db, 4, "m", 0, db.effective.value, DriftedEvidence(db.review))
  }

  lemma DriftedIsAccepted(db: PlanDb)
    requires Operable(db) && AtTheGate(db) && KnownRevision(db.review, Latest(db.review, 1)) && AuthorOf(db.review, Latest(db.review, 1)) == 5
    ensures PlanNext(db, Accepting) == Pass(db, "m", DriftedGate(db))
  {
    CollectsDrifted(db);
    assert FindMilestone(OneGate.milestones, "m") == Some(OneMilestone);
  }

  /** The gate lets the phase complete on evidence that was never approved. */
  ghost predicate UncertifiedCompletion(db: PlanDb) {
    && TransitionPhase(db, "p", Completed, false, false).1.PhaseMoved?
    && "m" in db.milestones && db.milestones["m"].phaseKey == "p"
    && var g := LatestGate(db.gates, "m", db.generation);
       && g.Some? && 1 in db.gates[g.value].evidence
       && !Certified(db.review, db.gates[g.value].evidence[1].revision)
  }

  lemma DriftedPasses(db: PlanDb)
    requires AtTheGate(db) && KnownRevision(db.review, Latest(db.review, 1))
    ensures var after := Pass(db, "m", DriftedGate(db));
            && "m" in after.milestones && GatePassed(after, "m") && LatestGate(after.gates, "m", after.generation) == Some(0)
            && after.gates == [DriftedGate(db)]
  {
    LatestGateAppended(db.gates, DriftedGate(db));
  }

  lemma DriftedIsNotCertified(db: Db)
    requires Schema(db) && Drifted(db, 1)
    ensures !Certified(db, Latest(db, 1))
  {
    DriftedHasNoDecision(db, 1);
  }

  lemma DriftedCompletes(db: PlanDb)
    requires AtTheGate(db) && KnownRevision(db.review, Latest(db.review, 1)) && !Certified(db.review, Latest(db.review, 1))
    ensures UncertifiedCompletion(Pass(db, "m", DriftedGate(db)))
  {
    DriftedPasses(db);
    var after := Pass(db, "m", DriftedGate(db));
    assert after.milestones.Keys == {"m"};
  }

  /** A run from an empty database that completes a phase although nobody approved what its milestone rests on. */
  lemma CompletedWithoutApproval() returns (calls: seq<PlanCall>)
    ensures UncertifiedCompletion(PlanRun(Fresh(), calls))
  {
    var before := GateCanBeReached();
    var db := PlanRun(Fresh(), before);
    DriftsAtTheGate(db);
    var drifted := PlanNext(db, Drifting(db));
    DriftedIsAccepted(drifted);
    DriftedIsNotCertified(drifted.review);
    DriftedCompletes(drifted);
    PlanRunAppend(Fresh(), before, Drifting(db));
    PlanRunAppend(Fresh(), before + [Drifting(db)], Accepting);
    calls := before + [Drifting(db)] + [Accepting];
  }

  // ---------------------------------------------------------------- a started phase with an open dependency

  const Alone: Manifest := Manifest(true, [], [], [], [OnePhase], [], [])

  /** The same phase, now depending on a second one. */
  const Dependent: Manifest := Manifest(true, [], [], [], [PlanPhase("p", "p", 0, 0, true, ["q"]), PlanPhase("q", "q", 0, 0, true, [])], [], [])

  lemma AloneIsValid()
    ensures ValidManifest(Alone)
  {
    OneKey("p");
    assert PhaseKeys(Alone) == ["p"];
    SinglePhaseOrders(OnePhase);
  }

  lemma DependentOrders()
    ensures Orderable(GraphOf(Dependent.phases))
  {
    var ps := Dependent.phases;
    var g := GraphOf(ps);
    assert ps[..1][..0] == [] && ps[..1][0] == ps[0];
    assert GraphOf(ps[..1]) == map["p" := ["q"]];
    assert g == map["p" := ["q"], "q" := []];
    var order := ["q", "p"];
    assert Ready(g, order[0], order[..0]);
    assert order[..1] == ["q"];
    assert Ready(g, order[1], order[..1]);
    assert TopologicalOrder(g, order);
  }

  lemma DependentIsValid()
    ensures ValidManifest(Dependent)
  {
    assert PhaseKeys(Dependent) == ["p", "q"];
    assert PhaseKeys(Dependent)[1] == "q";
    DependentOrders();
  }

  ghost predicate OnlyActive(db: PlanDb) {
    db.phases.Keys == {"p"} && db.phases["p"].status == Active && db.phases["p"].dependsOn == []
  }

  lemma OnlyPhase(before: PlanDb, db: PlanDb)
    requires PhasesProject(db, Alone) && StatusesSurvive(before, db) && before.phases == map[]
    ensures db.phases.Keys == {"p"} && db.phases["p"].status == NotStarted && db.phases["p"].dependsOn == []
  {
    assert PhaseKeys(Alone) == ["p"] && Alone.phases[0] == OnePhase;
    assert OnePhase.key in db.phases;
  }

  lemma DependentDropsNothing(db: PlanDb)
    requires db.phases.Keys == {"p"} && db.gates == []
    ensures DropsNothing(db, Dependent)
  {
    assert PhaseKeys(Dependent)[0] == "p";
  }

  lemma AloneCanBeInEffect() returns (calls: seq<PlanCall>)
    ensures var db := PlanRun(Fresh(), calls);
            && db.gates == [] && db.phases.Keys == {"p"} && db.phases["p"].status == NotStarted && db.phases["p"].dependsOn == []
  {
    FreshIsValid();
    AloneIsValid();
    calls := ManifestCanBePutIntoEffect(Fresh(), Alone, 1, 2, 3);
    OnlyPhase(Fresh(), PlanRun(Fresh(), calls));
  }

  lemma PhaseCanBeActive() returns (calls: seq<PlanCall>)
    ensures var db := PlanRun(Fresh(), calls); OnlyActive(db) && db.gates == []
  {
    var first := AloneCanBeInEffect();
    PhaseOpens(PlanRun(Fresh(), first));
    PlanRunAppend(Fresh(), first, Opening);
    calls := first + [Opening];
  }

  /** The phase is active, and a manifest in which it depends on a new phase waits to be applied. */
  lemma DependenceCanBeApproved() returns (calls: seq<PlanCall>)
    ensures var db := PlanRun(Fresh(), calls); Applicable(db, Dependent, 1) && DropsNothing(db, Dependent) && OnlyActive(db)
  {
    var first := PhaseCanBeActive();
    FreshRun(first);
    DependentIsValid();
    var second := ManifestCanBeApproved(PlanRun(Fresh(), first), Dependent, 1, 2, 3);
    calls := first + second;
    PlanRunConcat(Fresh(), first, second);
    DependentDropsNothing(PlanRun(Fresh(), calls));
  }

  lemma DependenceBreaks(db: PlanDb, target: RevisionId)
    requires db.plan in db.review.products && OnlyActive(db)
    ensures StartedAfterDependencies(db) && !StartedAfterDependencies(Project(db, target, Dependent))
  {
    DependentIsValid();
    ApplicationOrderExact(db, target, Dependent);
    assert "q" in Dependent.phases[0].dependsOn && Dependent.phases[0].key == "p" && "q" !in db.phases;
  }

  /** A run from an empty database after which the application of an approved plan is accepted and gives a started phase
      a dependency that is not completed. */
  lemma StartedBeforeItsDependency() returns (calls: seq<PlanCall>)
    ensures var db := PlanRun(Fresh(), calls);
            && StartedAfterDependencies(db)
            && PlanAnswer(db, ApplyNow(db)).1.PlanApplied?
            && !StartedAfterDependencies(PlanNext(db, ApplyNow(db)))
  {
    calls := DependenceCanBeApproved();
    var db := PlanRun(Fresh(), calls);
    ApplicableIsAccepted(db, Dependent, 1);
    DependenceBreaks(db, Latest(db.review, db.plan));
  }
}
