/**
 What a project keeps over every run: the effective plan is an approved revision, the projection mirrors it,
 gate decisions are independent and complete, and recorded costs stay attached to their phases.
 */
module PlanSafety {
  import opened Wrappers
  import opened Review
  import opened ReviewSafety
  import opened ReviewRuns
  import opened PhaseGraph
  import opened PlanManifest
  import opened Plan

  // ---------------------------------------------------------------- the invariant

  ghost predicate ManifestsKnown(db: PlanDb) {
    forall r | r in db.manifests :: r.product == db.plan && KnownRevision(db.review, r) && ValidManifest(db.manifests[r])
  }

  ghost predicate Bound(db: PlanDb) {
    && db.plan in db.review.products
    && db.review.products[db.plan].project == db.project
    && db.review.products[db.plan].productType == PlanType
    && ManifestsKnown(db)
  }

  ghost predicate ApplicationsCounted(db: PlanDb) {
    && db.generation == |db.applications|
    && (forall i | 0 <= i < |db.applications| ::
          && db.applications[i].generation == i + 1
          && db.applications[i].plan in db.manifests
          && RevisionApproved(db.review, db.applications[i].plan))
    && db.effective == (if db.applications == [] then None else Some(db.applications[|db.applications| - 1].plan))
  }

  ghost predicate PhasesProject(db: PlanDb, m: Manifest) {
    && (forall k :: k in db.phases <==> k in PhaseKeys(m))
    && (forall i | 0 <= i < |m.phases| ::
          && m.phases[i].key in db.phases
          && db.phases[m.phases[i].key].dependsOn == m.phases[i].dependsOn
          && db.phases[m.phases[i].key].generation == db.generation)
  }

  ghost predicate MilestonesProject(db: PlanDb, m: Manifest) {
    && (forall k :: k in db.milestones <==> k in MilestoneKeys(m))
    && (forall i | 0 <= i < |m.milestones| ::
          && m.milestones[i].key in db.milestones
          && db.milestones[m.milestones[i].key].(status := Pending) == MilestoneRow(m.milestones[i], db.generation))
  }

  /** Before the first application there is nothing to project; after it, the projection is the effective manifest's. */
  ghost predicate Projected(db: PlanDb) {
    if db.effective.None? then db.phases == map[] && db.milestones == map[]
    else db.effective.value in db.manifests
         && PhasesProject(db, db.manifests[db.effective.value])
         && MilestonesProject(db, db.manifests[db.effective.value])
  }

  ghost predicate CostsAttached(db: PlanDb) {
    && (forall i | 0 <= i < |db.work| :: db.work[i].phase in db.phases)
    && (forall i | 0 <= i < |db.expenses| :: db.expenses[i].phase in db.phases)
  }

  /** The evidence row for product p names a revision of p, with its hash, that its decider did not write. */
  ghost predicate EvidenceSound(db: Db, g: GateDecision, p: Id)
    requires p in g.evidence
  {
    var r := g.evidence[p].revision;
    && r.product == p && KnownRevision(db, r) && g.evidence[p].hash == RevisionOf(db, r).hash
    && g.decidedBy != AuthorOf(db, r)
  }

  /** The evidence covers the deliverables the plan demands of the milestone, one row each. */
  ghost predicate EvidenceComplete(m: Manifest, g: GateDecision) {
    var s := FindMilestone(m.milestones, g.milestone);
    && s.Some?
    && |g.evidence| == |s.value.deliverableKeys|
    && (forall k | k in s.value.deliverableKeys :: ProductFor(m, k).Some? && ProductFor(m, k).value in g.evidence)
  }

  ghost predicate GateSound(db: PlanDb, g: GateDecision) {
    && g.plan in db.manifests && KnownRevision(db.review, g.plan)
    && g.decidedBy != AuthorOf(db.review, g.plan)
    && g.generation <= db.generation
    && (g.generation == db.generation ==> db.effective == Some(g.plan))
    && g.milestone in db.milestones
    && EvidenceComplete(db.manifests[g.plan], g)
    && (forall p | p in g.evidence :: EvidenceSound(db.review, g, p))
  }

  ghost predicate GatesSound(db: PlanDb) {
    forall i | 0 <= i < |db.gates| :: GateSound(db, db.gates[i])
  }

  /** Stated apart from `ReviewInvariant`, which the same tables also keep. */
  ghost predicate PlanInvariant(db: PlanDb) {
    && Bound(db)
    && ApplicationsCounted(db)
    && Projected(db)
    && CostsAttached(db)
    && GatesSound(db)
  }

  // ---------------------------------------------------------------- review calls

  lemma ApprovedGrows(db: Db, after: Db, r: RevisionId)
    requires RevisionApproved(db, r) && Grows(db, after)
    ensures RevisionApproved(after, r)
  {
    var i :| 0 <= i < |db.decisions| && db.decisions[i].request in db.requests
             && db.requests[db.decisions[i].request].revision == r
             && db.decisions[i].kind == Approval && db.decisions[i].outcome == Positive;
    assert after.decisions[i] == db.decisions[i];
  }

  lemma EvidenceSoundGrows(db: Db, after: Db, g: GateDecision, p: Id)
    requires p in g.evidence && EvidenceSound(db, g, p) && Grows(db, after)
    ensures EvidenceSound(after, g, p)
  {
    KnownGrows(db, after, g.evidence[p].revision);
  }

  lemma GateSoundGrows(db: PlanDb, review: Db, g: GateDecision)
    requires GateSound(db, g) && Grows(db.review, review)
    ensures GateSound(db.(review := review), g)
  {
    KnownGrows(db.review, review, g.plan);
    forall p | p in g.evidence ensures EvidenceSound(review, g, p) {
      EvidenceSoundGrows(db.review, review, g, p);
    }
  }

  lemma BoundGrows(db: PlanDb, review: Db)
    requires Bound(db) && Grows(db.review, review)
    ensures Bound(db.(review := review))
  {
    forall r | r in db.manifests ensures KnownRevision(review, r) {
      KnownGrows(db.review, review, r);
    }
  }

  lemma ApplicationsGrow(db: PlanDb, review: Db)
    requires ApplicationsCounted(db) && Grows(db.review, review)
    ensures ApplicationsCounted(db.(review := review))
  {
    forall i | 0 <= i < |db.applications| ensures RevisionApproved(review, db.applications[i].plan) {
      ApprovedGrows(db.review, review, db.applications[i].plan);
    }
  }

  lemma GatesGrow(db: PlanDb, review: Db)
    requires GatesSound(db) && Grows(db.review, review)
    ensures GatesSound(db.(review := review))
  {
    forall i | 0 <= i < |db.gates| ensures GateSound(db.(review := review), db.gates[i]) {
      GateSoundGrows(db, review, db.gates[i]);
    }
  }

  /** Whatever the review protocol adds leaves the project as it is. */
  lemma ReviewFrame(db: PlanDb, review: Db)
    requires PlanInvariant(db) && Grows(db.review, review)
    ensures PlanInvariant(db.(review := review))
  {
    BoundGrows(db, review);
    ApplicationsGrow(db, review);
    GatesGrow(db, review);
    assert Projected(db.(review := review)) && CostsAttached(db.(review := review));
  }

  // ---------------------------------------------------------------- revising the plan

  lemma AddManifestGates(db: PlanDb, r: RevisionId, m: Manifest)
    requires GatesSound(db) && r !in db.manifests
    ensures GatesSound(db.(manifests := db.manifests[r := m]))
  {
    var after := db.(manifests := db.manifests[r := m]);
    forall i | 0 <= i < |db.gates| ensures GateSound(after, db.gates[i]) {
      assert GateSound(db, db.gates[i]);
    }
  }

  lemma AddManifestBound(db: PlanDb, r: RevisionId, m: Manifest)
    requires Bound(db) && r !in db.manifests && r.product == db.plan && KnownRevision(db.review, r) && ValidManifest(m)
    ensures Bound(db.(manifests := db.manifests[r := m]))
  {
  }

  lemma AddManifestProjection(db: PlanDb, r: RevisionId, m: Manifest)
    requires ApplicationsCounted(db) && Projected(db) && CostsAttached(db) && r !in db.manifests
    ensures var after := db.(manifests := db.manifests[r := m]);
            ApplicationsCounted(after) && Projected(after) && CostsAttached(after)
  {
    var after := db.(manifests := db.manifests[r := m]);
    assert db.effective.Some? ==> after.manifests[db.effective.value] == db.manifests[db.effective.value];
  }

  lemma AddManifestKeeps(db: PlanDb, r: RevisionId, m: Manifest)
    requires PlanInvariant(db) && r !in db.manifests && r.product == db.plan && KnownRevision(db.review, r) && ValidManifest(m)
    ensures PlanInvariant(db.(manifests := db.manifests[r := m]))
  {
    AddManifestGates(db, r, m);
    AddManifestBound(db, r, m);
    AddManifestProjection(db, r, m);
  }

  /** The revision that a plan revision adds is known afterwards, and has no manifest before. */
  lemma NextRevisionIsFresh(db: PlanDb, revision: Revision)
    requires Bound(db)
    ensures var r := RevisionId(db.plan, |History(db.review, db.plan)| + 1);
            r !in db.manifests && KnownRevision(AddRevision(db.review, db.plan, revision), r)
  {
    var r := RevisionId(db.plan, |History(db.review, db.plan)| + 1);
    assert r in db.manifests ==> KnownRevision(db.review, r);
  }

  lemma StoreManifestKeeps(db: PlanDb, revision: Revision, m: Manifest)
    requires PlanInvariant(db) && ValidManifest(m)
    ensures PlanInvariant(StoreManifest(db, revision, m))
  {
    var r := RevisionId(db.plan, |History(db.review, db.plan)| + 1);
    var grown := db.(review := AddRevision(db.review, db.plan, revision));
    NextRevisionIsFresh(db, revision);
    AddRevisionGrows(db.review, db.plan, revision);
    assert PlanInvariant(grown) by { ReviewFrame(db, grown.review); }
    assert StoreManifest(db, revision, m) == grown.(manifests := grown.manifests[r := m]);
    AddManifestKeeps(grown, r, m);
  }

  // ---------------------------------------------------------------- putting a plan into effect

  /** What the upsert of phases leaves: the listed rows anew with surviving statuses, the others untouched. */
  lemma {:induction false} UpsertPhasesRows(phases: map<Key, Phase>, ps: seq<PlanPhase>, generation: nat)
    requires forall j, k | 0 <= j < k < |ps| :: ps[j].key != ps[k].key
    ensures var after := UpsertPhases(phases, ps, generation);
            && (forall i | 0 <= i < |ps| :: ps[i].key in after && after[ps[i].key] == PhaseRow(phases, ps[i], generation))
            && (forall k | k in phases :: k in after)
            && (forall k | k in after && (forall i | 0 <= i < |ps| :: ps[i].key != k) :: k in phases && after[k] == phases[k])
  {
    if ps != [] {
      UpsertPhasesRows(phases, ps[..|ps| - 1], generation);
      var before := UpsertPhases(phases, ps[..|ps| - 1], generation);
      var last := ps[|ps| - 1];
      forall i | 0 <= i < |ps| - 1 ensures ps[..|ps| - 1][i] == ps[i] {}
      assert last.key in before <==> last.key in phases;
    }
  }

  lemma {:induction false} UpsertMilestonesRows(milestones: map<Key, Milestone>, ss: seq<PlanMilestone>, generation: nat)
    requires forall j, k | 0 <= j < k < |ss| :: ss[j].key != ss[k].key
    ensures var after := UpsertMilestones(milestones, ss, generation);
            && (forall i | 0 <= i < |ss| :: ss[i].key in after && after[ss[i].key] == MilestoneRow(ss[i], generation))
            && (forall k | k in milestones :: k in after)
            && (forall k | k in after && (forall i | 0 <= i < |ss| :: ss[i].key != k) :: k in milestones && after[k] == milestones[k])
  {
    if ss != [] {
      UpsertMilestonesRows(milestones, ss[..|ss| - 1], generation);
      forall i | 0 <= i < |ss| - 1 ensures ss[..|ss| - 1][i] == ss[i] {}
    }
  }

  lemma MilestoneKeysDistinct(m: Manifest)
    requires ValidManifest(m)
    ensures forall j, k | 0 <= j < k < |m.milestones| :: m.milestones[j].key != m.milestones[k].key
  {
    forall j, k | 0 <= j < k < |m.milestones| ensures m.milestones[j].key != m.milestones[k].key {
      assert MilestoneKeys(m)[j] != MilestoneKeys(m)[k];
    }
  }

  lemma ListedPhase(m: Manifest, k: Key)
    ensures k in PhaseKeys(m) <==> exists i | 0 <= i < |m.phases| :: m.phases[i].key == k
  {
    if i :| 0 <= i < |m.phases| && m.phases[i].key == k { assert PhaseKeys(m)[i] == k; }
  }

  lemma ListedMilestone(m: Manifest, k: Key)
    ensures k in MilestoneKeys(m) <==> exists i | 0 <= i < |m.milestones| :: m.milestones[i].key == k
  {
    if i :| 0 <= i < |m.milestones| && m.milestones[i].key == k { assert MilestoneKeys(m)[i] == k; }
  }

  /** Pruning to keys that all have rows keeps exactly those rows. */
  lemma KeptRows<T>(rows: map<Key, T>, keys: seq<Key>)
    requires forall k | k in keys :: k in rows
    ensures forall k :: k in Keep(rows, keys) <==> k in keys
    ensures forall k | k in keys :: Keep(rows, keys)[k] == rows[k]
  {
  }

  lemma KeptPhases(phases: map<Key, Phase>, m: Manifest, generation: nat)
    requires ValidManifest(m)
    ensures var kept := Keep(UpsertPhases(phases, m.phases, generation), PhaseKeys(m));
            && (forall k :: k in kept <==> k in PhaseKeys(m))
            && (forall i | 0 <= i < |m.phases| :: m.phases[i].key in kept && kept[m.phases[i].key] == PhaseRow(phases, m.phases[i], generation))
  {
    var rows := UpsertPhases(phases, m.phases, generation);
    PhaseKeysDistinct(m);
    UpsertPhasesRows(phases, m.phases, generation);
    forall k | k in PhaseKeys(m) ensures k in rows { ListedPhase(m, k); }
    forall i | 0 <= i < |m.phases| ensures m.phases[i].key in PhaseKeys(m) { ListedPhase(m, m.phases[i].key); }
    KeptRows(rows, PhaseKeys(m));
  }

  lemma KeptMilestones(milestones: map<Key, Milestone>, m: Manifest, generation: nat)
    requires ValidManifest(m)
    ensures var kept := Keep(UpsertMilestones(milestones, m.milestones, generation), MilestoneKeys(m));
            && (forall k :: k in kept <==> k in MilestoneKeys(m))
            && (forall i | 0 <= i < |m.milestones| ::
                  m.milestones[i].key in kept && kept[m.milestones[i].key] == MilestoneRow(m.milestones[i], generation))
  {
    var rows := UpsertMilestones(milestones, m.milestones, generation);
    MilestoneKeysDistinct(m);
    UpsertMilestonesRows(milestones, m.milestones, generation);
    forall k | k in MilestoneKeys(m) ensures k in rows { ListedMilestone(m, k); }
    forall i | 0 <= i < |m.milestones| ensures m.milestones[i].key in MilestoneKeys(m) { ListedMilestone(m, m.milestones[i].key); }
    KeptRows(rows, MilestoneKeys(m));
  }

  lemma ProjectRows(db: PlanDb, target: RevisionId, m: Manifest)
    requires db.plan in db.review.products
    ensures var after := Project(db, target, m);
            && after.generation == db.generation + 1
            && after.phases == Keep(UpsertPhases(db.phases, m.phases, after.generation), PhaseKeys(m))
            && after.milestones == Keep(UpsertMilestones(db.milestones, m.milestones, after.generation), MilestoneKeys(m))
  {
  }

  lemma PhasesOf(after: PlanDb, m: Manifest, phases: map<Key, Phase>)
    requires forall k :: k in after.phases <==> k in PhaseKeys(m)
    requires forall i | 0 <= i < |m.phases| ::
               m.phases[i].key in after.phases && after.phases[m.phases[i].key] == PhaseRow(phases, m.phases[i], after.generation)
    ensures PhasesProject(after, m)
  {
  }

  /** The projection after an application: exactly the manifest's phases, with the statuses of those that survive. */
  lemma ProjectPhases(db: PlanDb, target: RevisionId, m: Manifest)
    requires db.plan in db.review.products && ValidManifest(m)
    ensures PhasesProject(Project(db, target, m), m)
    ensures forall i | 0 <= i < |m.phases| ::
              m.phases[i].key in Project(db, target, m).phases
              && Project(db, target, m).phases[m.phases[i].key] == PhaseRow(db.phases, m.phases[i], db.generation + 1)
  {
    KeptPhases(db.phases, m, db.generation + 1);
    ProjectRows(db, target, m);
    PhasesOf(Project(db, target, m), m, db.phases);
  }

  lemma MilestonesOf(after: PlanDb, m: Manifest)
    requires forall k :: k in after.milestones <==> k in MilestoneKeys(m)
    requires forall i | 0 <= i < |m.milestones| ::
               m.milestones[i].key in after.milestones
               && after.milestones[m.milestones[i].key] == MilestoneRow(m.milestones[i], after.generation)
    ensures MilestonesProject(after, m)
  {
  }

  /** Its milestones are exactly the manifest's, all pending again. */
  lemma ProjectMilestones(db: PlanDb, target: RevisionId, m: Manifest)
    requires db.plan in db.review.products && ValidManifest(m)
    ensures MilestonesProject(Project(db, target, m), m)
    ensures forall i | 0 <= i < |m.milestones| ::
              m.milestones[i].key in Project(db, target, m).milestones
              && Project(db, target, m).milestones[m.milestones[i].key] == MilestoneRow(m.milestones[i], db.generation + 1)
  {
    KeptMilestones(db.milestones, m, db.generation + 1);
    ProjectRows(db, target, m);
    MilestonesOf(Project(db, target, m), m);
  }

  lemma ProjectGates(db: PlanDb, target: RevisionId, m: Manifest)
    requires GatesSound(db) && db.plan in db.review.products && !DropsDecidedMilestone(db.milestones, db.gates, m)
    requires MilestonesProject(Project(db, target, m), m)
    requires Grows(db.review, Project(db, target, m).review)
    ensures GatesSound(Project(db, target, m))
  {
    var after := Project(db, target, m);
    GatesGrow(db, after.review);
    var grown := db.(review := after.review);
    forall i | 0 <= i < |db.gates| ensures GateSound(after, db.gates[i]) {
      assert GateSound(grown, db.gates[i]);
      assert HasGate(db.gates, db.gates[i].milestone);
      assert db.gates[i].milestone in MilestoneKeys(m);
    }
  }

  lemma ProjectCosts(db: PlanDb, target: RevisionId, m: Manifest)
    requires CostsAttached(db) && db.plan in db.review.products && !DropsCostedPhase(db.phases, db.work, db.expenses, m)
    requires PhasesProject(Project(db, target, m), m)
    ensures CostsAttached(Project(db, target, m))
  {
    var after := Project(db, target, m);
    forall i | 0 <= i < |db.work| ensures db.work[i].phase in after.phases {
      assert HasCost(db.work, db.expenses, db.work[i].phase);
    }
    forall i | 0 <= i < |db.expenses| ensures db.expenses[i].phase in after.phases {
      assert HasCost(db.work, db.expenses, db.expenses[i].phase);
    }
  }

  lemma ProjectCounts(db: PlanDb, target: RevisionId, m: Manifest)
    requires ApplicationsCounted(db) && db.plan in db.review.products
    requires target in db.manifests && RevisionApproved(db.review, target)
    requires Grows(db.review, Project(db, target, m).review)
    ensures ApplicationsCounted(Project(db, target, m))
  {
    var review := Project(db, target, m).review;
    ApplicationsGrow(db, review);
    ApprovedGrows(db.review, review, target);
  }

  lemma ProjectKeeps(db: PlanDb, target: RevisionId)
    requires Schema(db.review) && PlanInvariant(db) && target in db.manifests && RevisionApproved(db.review, target)
    requires !DropsCostedPhase(db.phases, db.work, db.expenses, db.manifests[target]) && !DropsDecidedMilestone(db.milestones, db.gates, db.manifests[target])
    ensures PlanInvariant(Project(db, target, db.manifests[target]))
  {
    var m := db.manifests[target];
    var after := Project(db, target, m);
    BumpSchema(db.review, db.plan);
    assert after.review == Bump(db.review, db.plan);
    BoundGrows(db, after.review);
    assert Bound(after);
    ProjectPhases(db, target, m);
    ProjectMilestones(db, target, m);
    ProjectGates(db, target, m);
    ProjectCosts(db, target, m);
    ProjectCounts(db, target, m);
  }

  /** An accepted application repeats the revision in effect and changes nothing, or projects an approved, valid target. */
  lemma ApplicationShape(db: PlanDb, requested: Option<RevisionId>, expected: nat)
    requires db.plan in db.review.products && ApplyPlan(db, requested, expected).1.PlanApplied?
    ensures var (after, reply) := ApplyPlan(db, requested, expected);
            && Target(db, requested) == Some(reply.revision) && reply.revision in db.manifests
            && ValidManifest(db.manifests[reply.revision]) && RevisionApproved(db.review, reply.revision)
            && (db.effective == Some(reply.revision) ==> after == db && reply.generation == db.generation)
            && (db.effective != Some(reply.revision) ==>
                  && after == Project(db, reply.revision, db.manifests[reply.revision])
                  && reply.generation == db.generation + 1
                  && !DropsCostedPhase(db.phases, db.work, db.expenses, db.manifests[reply.revision])
                  && !DropsDecidedMilestone(db.milestones, db.gates, db.manifests[reply.revision]))
  {
  }

  lemma ApplicationReview(db: PlanDb, requested: Option<RevisionId>, expected: nat)
    requires db.plan in db.review.products
    ensures ApplyPlan(db, requested, expected).0.review in {db.review, Bump(db.review, db.plan)}
  {
  }

  lemma ApplyPlanKeeps(db: PlanDb, requested: Option<RevisionId>, expected: nat)
    requires Schema(db.review) && PlanInvariant(db)
    ensures PlanInvariant(ApplyPlan(db, requested, expected).0)
  {
    var (after, reply) := ApplyPlan(db, requested, expected);
    if after != db {
      ApplicationShape(db, requested, expected);
      ProjectKeeps(db, reply.revision);
    }
  }
}
