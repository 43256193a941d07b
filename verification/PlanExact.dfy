/**
 When the calls on a project are accepted, and what an accepted one leaves, written out in terms of the tables.
 */
module PlanExact {
  import opened Wrappers
  import opened Review
  import opened ReviewSafety
  import opened ReviewRuns
  import opened ReviewDrift
  import opened PhaseGraph
  import opened PlanManifest
  import opened Plan
  import opened PlanSafety
  import opened PlanRuns
  import opened PlanGuarantees

  // ---------------------------------------------------------------- revising the plan

  /** A plan revision is accepted exactly for a valid manifest whose deliverables exist in the project, at the expected row
      version, without veto. It is added to the plan's history with its manifest, and the plan is a draft again. */
  lemma RevisePlanExactly(db: PlanDb, actor: Id, expected: nat, hash: string, m: Manifest, vetoed: bool)
    requires db.plan in db.review.products
    ensures var (after, reply) := RevisePlan(db, actor, expected, hash, m, vetoed);
            var n := |History(db.review, db.plan)|;
            && (reply.PlanRevised? <==>
                  && ValidManifest(m) && db.review.products[db.plan].rowVersion == expected && !vetoed
                  && forall i | 0 <= i < |m.deliverables| && m.deliverables[i].productText != "" ::
                       && m.deliverables[i].product.Some? && m.deliverables[i].product.value in db.review.products
                       && db.review.products[m.deliverables[i].product.value].project == db.project)
            && (reply.PlanRevised? ==>
                  && reply.revision == RevisionId(db.plan, n + 1)
                  && History(after.review, db.plan) == History(db.review, db.plan) + [Revision(hash, actor)]
                  && after.review.products[db.plan] == db.review.products[db.plan].(status := Draft, rowVersion := expected + 1)
                  && after == db.(review := after.review, manifests := db.manifests[RevisionId(db.plan, n + 1) := m]))
            && (!reply.PlanRevised? ==> after == db)
  {
    if RevisePlan(db, actor, expected, hash, m, vetoed).1.PlanRevised? {
      forall i | 0 <= i < |m.deliverables| ensures DeliverableExists(db, m.deliverables[i]) {}
    }
  }

  // ---------------------------------------------------------------- applying it

  /** The revision the caller names, or else the last one that has a manifest. */
  predicate IsTarget(db: PlanDb, requested: Option<RevisionId>, t: RevisionId) {
    && t.product == db.plan && t in db.manifests
    && (requested.Some? ==> requested.value == t)
    && (requested.None? ==> 1 <= t.number <= |History(db.review, db.plan)|
                            && forall n | t.number < n <= |History(db.review, db.plan)| :: RevisionId(db.plan, n) !in db.manifests)
  }

  lemma {:induction false} LatestManifestExactly(db: PlanDb, n: nat, t: RevisionId)
    ensures LatestManifest(db, n) == Some(t) <==>
            && t.product == db.plan && t in db.manifests && 1 <= t.number <= n
            && forall k | t.number < k <= n :: RevisionId(db.plan, k) !in db.manifests
  {
    if n > 0 && RevisionId(db.plan, n) !in db.manifests {
      LatestManifestExactly(db, n - 1, t);
    }
  }

  lemma TargetExactly(db: PlanDb, requested: Option<RevisionId>, t: RevisionId)
    ensures Target(db, requested) == Some(t) <==> IsTarget(db, requested, t)
  {
    LatestManifestExactly(db, |History(db.review, db.plan)|, t);
  }

  /** Within the protocol, an approved revision is one that was approved by an assigned approver after a review by an assigned
      reviewer, neither of them its author. */
  lemma ApprovedIsCertified(db: Db, r: RevisionId)
    requires ReviewInvariant(db)
    ensures RevisionApproved(db, r) <==> Certified(db, r)
  {
    if RevisionApproved(db, r) {
      var i :| 0 <= i < |db.decisions| && db.requests[db.decisions[i].request].revision == r && db.decisions[i].kind == Approval;
      ApprovalCertifies(db, i);
    }
    if Certified(db, r) {
      var i, j :| 0 <= j < i < |db.decisions| && CertifiedBy(db, r, i, j);
      assert db.decisions[i].request in db.requests && db.requests[db.decisions[i].request].revision == r;
    }
  }

  /** No phase with recorded cost and no milestone with a decision is missing from the manifest. */
  predicate KeepsRecorded(db: PlanDb, m: Manifest) {
    && (forall i | 0 <= i < |db.work| :: db.work[i].phase in PhaseKeys(m))
    && (forall i | 0 <= i < |db.expenses| :: db.expenses[i].phase in PhaseKeys(m))
    && (forall i | 0 <= i < |db.gates| :: db.gates[i].milestone in MilestoneKeys(m))
  }

  lemma DropsExactly(db: PlanDb, m: Manifest)
    requires CostsAttached(db) && forall i | 0 <= i < |db.gates| :: db.gates[i].milestone in db.milestones
    ensures KeepsRecorded(db, m) <==>
            !DropsCostedPhase(db.phases, db.work, db.expenses, m) && !DropsDecidedMilestone(db.milestones, db.gates, m)
  {
    if !DropsCostedPhase(db.phases, db.work, db.expenses, m) {
      forall i | 0 <= i < |db.work| ensures db.work[i].phase in PhaseKeys(m) { assert HasCost(db.work, db.expenses, db.work[i].phase); }
      forall i | 0 <= i < |db.expenses| ensures db.expenses[i].phase in PhaseKeys(m) { assert HasCost(db.work, db.expenses, db.expenses[i].phase); }
    }
    if !DropsDecidedMilestone(db.milestones, db.gates, m) {
      forall i | 0 <= i < |db.gates| ensures db.gates[i].milestone in MilestoneKeys(m) { assert HasGate(db.gates, db.gates[i].milestone); }
    }
  }

  lemma GatesAttached(db: PlanDb)
    requires GatesSound(db)
    ensures forall i | 0 <= i < |db.gates| :: db.gates[i].milestone in db.milestones
  {
    forall i | 0 <= i < |db.gates| ensures db.gates[i].milestone in db.milestones { assert GateSound(db, db.gates[i]); }
  }

  /** The application can be made: its target is certified, and in effect already or keeps what is recorded. */
  ghost predicate MayApply(db: PlanDb, t: RevisionId) {
    t in db.manifests && Certified(db.review, t) && (db.effective == Some(t) || KeepsRecorded(db, db.manifests[t]))
  }

  lemma ApplyAcceptsTarget(db: PlanDb, requested: Option<RevisionId>, expected: nat, t: RevisionId)
    requires ReviewInvariant(db.review) && Bound(db) && CostsAttached(db) && IsTarget(db, requested, t)
    requires forall i | 0 <= i < |db.gates| :: db.gates[i].milestone in db.milestones
    ensures ApplyPlan(db, requested, expected).1.PlanApplied? <==>
            db.review.products[db.plan].rowVersion == expected && MayApply(db, t)
  {
    TargetExactly(db, requested, t);
    ApprovedIsCertified(db.review, t);
    DropsExactly(db, db.manifests[t]);
  }

  lemma AcceptedHasTarget(db: PlanDb, requested: Option<RevisionId>, expected: nat) returns (t: RevisionId)
    requires db.plan in db.review.products && ApplyPlan(db, requested, expected).1.PlanApplied?
    ensures IsTarget(db, requested, t) && ApplyPlan(db, requested, expected).1.revision == t
  {
    t := Target(db, requested).value;
    TargetExactly(db, requested, t);
  }

  /** An application is accepted exactly at the expected row version, for a target that is certified, and that is in effect
      already or keeps what is recorded. */
  lemma ApplyAcceptsExactly(db: PlanDb, requested: Option<RevisionId>, expected: nat)
    requires ReviewInvariant(db.review) && Bound(db) && CostsAttached(db) && GatesSound(db)
    ensures ApplyPlan(db, requested, expected).1.PlanApplied? <==>
            db.review.products[db.plan].rowVersion == expected && exists t :: IsTarget(db, requested, t) && MayApply(db, t)
  {
    GatesAttached(db);
    if ApplyPlan(db, requested, expected).1.PlanApplied? {
      var t := AcceptedHasTarget(db, requested, expected);
      ApplyAcceptsTarget(db, requested, expected, t);
    }
    if t :| IsTarget(db, requested, t) && MayApply(db, t) { ApplyAcceptsTarget(db, requested, expected, t); }
  }

  /** What a new plan leaves: each phase and milestone of its manifest with its fields, statuses that survive, and no other. */
  lemma ProjectionExactly(db: PlanDb, target: RevisionId, m: Manifest, i: nat)
    requires db.plan in db.review.products && ValidManifest(m)
    ensures var after := Project(db, target, m);
            && after.effective == Some(target) && after.generation == db.generation + 1
            && (i < |m.phases| ==>
                  var k := m.phases[i].key;
                  k in after.phases && after.phases[k]
                  == Phase(if k in db.phases then db.phases[k].status else NotStarted, m.phases[i].dependsOn, db.generation + 1))
            && (i < |m.milestones| ==>
                  var k := m.milestones[i].key;
                  k in after.milestones && after.milestones[k]
                  == Milestone(m.milestones[i].phaseKey, Pending, m.milestones[i].deliverableKeys, m.milestones[i].ruleKeys, db.generation + 1))
  {
    ProjectPhases(db, target, m);
    ProjectMilestones(db, target, m);
  }

  /** After every run the plan in effect is certified, whatever became of the plan product since. */
  lemma PlanInEffectIsCertified(earlier: seq<Call>, actor: Id, project: Id, hash: string, calls: seq<PlanCall>)
    ensures var db := PlanRun(Begun(Run(Start(), earlier), actor, project, hash), calls);
            db.effective.Some? ==> Certified(db.review, db.effective.value)
  {
    var begun := Begun(Run(Start(), earlier), actor, project, hash);
    BegunTracked(earlier, actor, project, hash);
    ProjectTracked(begun, DriftOf(Start(), {}, earlier), calls);
    var db := PlanRun(begun, calls);
    if db.effective.Some? { EffectiveIsCertified(db); }
  }

  lemma EffectiveIsCertified(db: PlanDb)
    requires ReviewInvariant(db.review) && ApplicationsCounted(db) && db.effective.Some?
    ensures Certified(db.review, db.effective.value)
  {
    ApprovedIsCertified(db.review, db.effective.value);
  }

  // ---------------------------------------------------------------- accepting a milestone

  /** The deliverable k stands for product p, which the manifest requires approved, and which is approved in this project
      with a latest revision that the actor did not write. */
  predicate Delivers(db: PlanDb, m: Manifest, actor: Id, k: Key, p: Id) {
    && (exists i | 0 <= i < |m.deliverables| ::
          && m.deliverables[i].key == k && m.deliverables[i].productText != "" && m.deliverables[i].product == Some(p)
          && m.deliverables[i].requiredStatus == Some(Approved))
    && p in db.review.products && db.review.products[p].project == db.project && db.review.products[p].status == Approved
    && History(db.review, p) != [] && History(db.review, p)[|History(db.review, p)| - 1].author != actor
  }

  lemma {:induction false} FindDeliverableAt(ds: seq<Deliverable>, i: nat)
    requires i < |ds| && forall j, k | 0 <= j < k < |ds| :: ds[j].key != ds[k].key
    ensures FindDeliverable(ds, ds[i].key) == Some(ds[i])
  {
    if i > 0 { FindDeliverableAt(ds[1..], i - 1); }
  }

  lemma DeliverableKeysDistinct(m: Manifest)
    requires ValidManifest(m)
    ensures forall j, k | 0 <= j < k < |m.deliverables| :: m.deliverables[j].key != m.deliverables[k].key
  {
    forall j, k | 0 <= j < k < |m.deliverables| ensures m.deliverables[j].key != m.deliverables[k].key {
      assert DeliverableKeys(m)[j] != DeliverableKeys(m)[k];
    }
  }

  lemma DeliversExactly(db: PlanDb, m: Manifest, actor: Id, k: Key, p: Id)
    requires ValidManifest(m)
    ensures Delivers(db, m, actor, k, p) <==> ProductFor(m, k) == Some(p) && EvidenceProblem(db, m, actor, k).None?
  {
    DeliverableKeysDistinct(m);
    if i :| 0 <= i < |m.deliverables| && m.deliverables[i].key == k { FindDeliverableAt(m.deliverables, i); }
  }

  /** Each of the keys delivers a product, and no two the same. */
  predicate AllDeliver(db: PlanDb, m: Manifest, actor: Id, keys: seq<Key>, ps: seq<Id>) {
    && |ps| == |keys| && (forall i | 0 <= i < |keys| :: Delivers(db, m, actor, keys[i], ps[i]))
    && (forall i, j | 0 <= i < j < |ps| :: ps[i] != ps[j])
  }

  lemma {:induction false} CollectedDeliver(db: PlanDb, m: Manifest, actor: Id, keys: seq<Key>) returns (ps: seq<Id>)
    requires ValidManifest(m) && Collect(db, m, actor, keys).Complete?
    ensures AllDeliver(db, m, actor, keys, ps)
    ensures forall p :: p in Collect(db, m, actor, keys).evidence <==> p in ps
  {
    ps := [];
    if keys != [] {
      var rest, k := keys[..|keys| - 1], keys[|keys| - 1];
      var before := CollectedDeliver(db, m, actor, rest);
      DeliversExactly(db, m, actor, k, ProductFor(m, k).value);
      ps := before + [ProductFor(m, k).value];
      assert forall i | 0 <= i < |rest| :: keys[i] == rest[i];
    }
  }

  lemma {:induction false} DeliveredCollects(db: PlanDb, m: Manifest, actor: Id, keys: seq<Key>, ps: seq<Id>)
    requires ValidManifest(m) && AllDeliver(db, m, actor, keys, ps)
    ensures Collect(db, m, actor, keys).Complete?
    ensures forall p :: p in Collect(db, m, actor, keys).evidence <==> p in ps
  {
    if keys != [] {
      var n := |keys| - 1;
      assert AllDeliver(db, m, actor, keys[..n], ps[..n]);
      DeliveredCollects(db, m, actor, keys[..n], ps[..n]);
      DeliversExactly(db, m, actor, keys[n], ps[n]);
      assert ps == ps[..n] + [ps[n]];
    }
  }

  /** The evidence can be collected exactly if every deliverable delivers a product of its own. */
  lemma CollectExactly(db: PlanDb, m: Manifest, actor: Id, keys: seq<Key>)
    requires ValidManifest(m)
    ensures Collect(db, m, actor, keys).Complete? <==> exists ps :: AllDeliver(db, m, actor, keys, ps)
  {
    if Collect(db, m, actor, keys).Complete? { var ps := CollectedDeliver(db, m, actor, keys); }
    if ps :| AllDeliver(db, m, actor, keys, ps) { DeliveredCollects(db, m, actor, keys, ps); }
  }

  /** The decision g on milestone k has one row for each deliverable, each naming the latest revision of an approved product. */
  predicate Standing(db: PlanDb, k: Key, g: GateDecision)
    requires k in db.milestones
  {
    && g.milestone == k && g.generation == db.milestones[k].generation && |g.evidence| == |db.milestones[k].deliverableKeys|
    && forall p | p in g.evidence ::
         && p in db.review.products && db.review.products[p].status == Approved
         && g.evidence[p].revision == RevisionId(p, |History(db.review, p)|)
  }

  /** The last decision on milestone k in its generation, by time and then by insertion. */
  predicate LastOn(db: PlanDb, k: Key, g: nat)
    requires k in db.milestones
  {
    && g < |db.gates| && db.gates[g].milestone == k && db.gates[g].generation == db.milestones[k].generation
    && forall i | 0 <= i < |db.gates| && db.gates[i].milestone == k && db.gates[i].generation == db.milestones[k].generation ::
         db.gates[i].decidedAt < db.gates[g].decidedAt || (db.gates[i].decidedAt == db.gates[g].decidedAt && i <= g)
  }

  lemma LatestGateExactly(db: PlanDb, k: Key, g: nat)
    requires k in db.milestones
    ensures LatestGate(db.gates, k, db.milestones[k].generation) == Some(g) <==> LastOn(db, k, g)
  {
  }

  /** A milestone that is passed is answered with its last decision if that still stands. */
  predicate StillStands(db: PlanDb, k: Key)
    requires k in db.milestones
  {
    db.milestones[k].status == Passed && exists g | 0 <= g < |db.gates| :: LastOn(db, k, g) && Standing(db, k, db.gates[g])
  }

  lemma StillPassedExactly(db: PlanDb, k: Key)
    requires k in db.milestones
    ensures StillPassed(db, k) <==> StillStands(db, k)
  {
    var latest := LatestGate(db.gates, k, db.milestones[k].generation);
    if latest.Some? { LatestGateExactly(db, k, latest.value); }
    if g :| 0 <= g < |db.gates| && LastOn(db, k, g) && Standing(db, k, db.gates[g]) { LatestGateExactly(db, k, g); }
  }

  /** What the projection tells of a milestone: the plan in effect lists it as it is, in the present generation. */
  lemma MilestoneIsListed(db: PlanDb, k: Key)
    requires Bound(db) && Projected(db) && k in db.milestones
    ensures db.effective.Some? && db.effective.value in db.manifests && KnownRevision(db.review, db.effective.value)
    ensures db.milestones[k].generation == db.generation && SameMilestone(db.manifests[db.effective.value], k, db.milestones[k])
  {
    var m := db.manifests[db.effective.value];
    ListedMilestone(m, k);
    var i :| 0 <= i < |m.milestones| && m.milestones[i].key == k;
    MilestoneKeysDistinct(m);
    FindMilestoneAt(m.milestones, i);
    assert db.milestones[m.milestones[i].key].(status := Pending) == MilestoneRow(m.milestones[i], db.generation);
  }

  /** A new decision may be taken: the milestone is pending, or passed by a decision that stands no longer, it has no further
      rules, and every deliverable delivers. */
  ghost predicate MayDecide(db: PlanDb, actor: Id, k: Key)
    requires k in db.milestones && db.effective.Some? && db.effective.value in db.manifests
  {
    && (db.milestones[k].status == Pending || (db.milestones[k].status == Passed && exists g | 0 <= g < |db.gates| :: LastOn(db, k, g)))
    && db.milestones[k].ruleKeys == []
    && exists ps :: AllDeliver(db, db.manifests[db.effective.value], actor, db.milestones[k].deliverableKeys, ps)
  }

  lemma HasLast(db: PlanDb, k: Key)
    requires k in db.milestones
    ensures LatestGate(db.gates, k, db.milestones[k].generation).Some? <==> exists g | 0 <= g < |db.gates| :: LastOn(db, k, g)
  {
    var latest := LatestGate(db.gates, k, db.milestones[k].generation);
    if latest.Some? { LatestGateExactly(db, k, latest.value); }
  }

  /** A milestone is accepted exactly by someone other than the author of the plan in effect, if its last decision still
      stands, or if a new one may be taken and no rule vetoes it. */
  lemma AcceptExactly(db: PlanDb, actor: Id, k: Key, now: int, vetoed: bool)
    requires Bound(db) && Projected(db) && k in db.milestones
    ensures db.effective.Some? && db.effective.value in db.manifests && KnownRevision(db.review, db.effective.value)
    ensures AcceptMilestone(db, actor, k, now, vetoed).1.MilestoneAccepted? <==>
            && actor != AuthorOf(db.review, db.effective.value)
            && (StillStands(db, k) || (!vetoed && MayDecide(db, actor, k)))
  {
    MilestoneIsListed(db, k);
    StillPassedExactly(db, k);
    HasLast(db, k);
    CollectExactly(db, db.manifests[db.effective.value], actor, db.milestones[k].deliverableKeys);
  }

  /** Whoever is told that a milestone is accepted is told of a decision that stands; it was the last one there, or it is
      theirs, on the plan in effect, with one row for each product delivered. */
  lemma AcceptedStands(db: PlanDb, actor: Id, k: Key, now: int, vetoed: bool)
    requires Bound(db) && Projected(db) && AcceptMilestone(db, actor, k, now, vetoed).1.MilestoneAccepted?
    ensures var (after, reply) := AcceptMilestone(db, actor, k, now, vetoed);
            && k in db.milestones && k in after.milestones && after.milestones[k] == db.milestones[k].(status := Passed)
            && reply.gate < |after.gates| && Standing(after, k, after.gates[reply.gate])
            && ((after == db && LastOn(db, k, reply.gate))
                || (after.gates == db.gates + [after.gates[reply.gate]] && reply.gate == |db.gates|
                    && after.gates[reply.gate].decidedBy == actor && after.gates[reply.gate].decidedAt == now
                    && Some(after.gates[reply.gate].plan) == db.effective && after.gates[reply.gate].generation == db.generation))
  {
    var (after, reply) := AcceptMilestone(db, actor, k, now, vetoed);
    MilestoneIsListed(db, k);
    if StillPassed(db, k) {
      LatestGateExactly(db, k, LatestGate(db.gates, k, db.milestones[k].generation).value);
    } else {
      CollectSound(db, db.manifests[db.effective.value], actor, db.milestones[k].deliverableKeys);
    }
  }

  // ---------------------------------------------------------------- moving a phase

  /** The last decision on the milestone is of the plan in effect and has a row for each deliverable; each of its rows that
      names a product still there names its latest revision, approved. */
  predicate PassedNow(db: PlanDb, s: Key)
    requires s in db.milestones
  {
    && db.milestones[s].status == Passed
    && exists g | 0 <= g < |db.gates| ::
         && LastOn(db, s, g) && Some(db.gates[g].plan) == db.effective && db.gates[g].generation == db.generation
         && |db.gates[g].evidence| == |db.milestones[s].deliverableKeys|
         && forall p | p in db.gates[g].evidence && p in db.review.products ::
              db.review.products[p].status == Approved && db.gates[g].evidence[p].revision == RevisionId(p, |History(db.review, p)|)
  }

  lemma PassedExactly(db: PlanDb, s: Key)
    requires s in db.milestones
    ensures GatePassed(db, s) <==> PassedNow(db, s)
  {
    var latest := LatestGate(db.gates, s, db.milestones[s].generation);
    if latest.Some? { LatestGateExactly(db, s, latest.value); }
    if g :| 0 <= g < |db.gates| && LastOn(db, s, g) { LatestGateExactly(db, s, g); }
  }

  /** A phase moves exactly one step of its life cycle: it is opened when its dependencies are completed, and completed when
      its milestones are passed, and either only if the facts and the rules allow it. Nothing else changes. */
  lemma TransitionExactly(db: PlanDb, k: Key, to: PhaseStatus, factsFail: bool, vetoed: bool)
    ensures var (after, reply) := TransitionPhase(db, k, to, factsFail, vetoed);
            && (reply.PhaseMoved? <==>
                  && k in db.phases && !factsFail && !vetoed
                  && ((db.phases[k].status == NotStarted && to == Active
                       && forall d | d in db.phases[k].dependsOn && d in db.phases :: db.phases[d].status == Completed)
                      || (db.phases[k].status == Active && to == Completed
                          && forall s | s in db.milestones && db.milestones[s].phaseKey == k :: PassedNow(db, s))))
            && (reply.PhaseMoved? ==> after == db.(phases := db.phases[k := db.phases[k].(status := to)]))
            && (!reply.PhaseMoved? ==> after == db)
  {
    forall s | s in db.milestones ensures GatePassed(db, s) <==> PassedNow(db, s) { PassedExactly(db, s); }
  }

  // ---------------------------------------------------------------- recording costs

  /** Work is recorded, as given, exactly for an active phase, more than nothing and at most a day, and a known category. */
  lemma LogWorkExactly(db: PlanDb, record: WorkRecord)
    ensures var (after, reply) := LogWork(db, record);
            && (reply.CostRecorded? <==>
                  && record.phase in db.phases && db.phases[record.phase].status == Active && 0 < record.hundredths <= 24 * 100
                  && record.category in {"design", "development", "review", "testing", "management"})
            && after == if reply.CostRecorded? then db.(work := db.work + [record]) else db
  {
  }

  /** An expense is recorded, as given, exactly for an active phase, an amount above nothing, a known category and type, and a
      currency of three capital letters, that of the baseline in force if there is one. */
  lemma RecordExpenseExactly(db: PlanDb, expense: Expense, baseline: Option<string>)
    ensures var (after, reply) := RecordExpense(db, expense, baseline);
            && (reply.CostRecorded? <==>
                  && expense.phase in db.phases && db.phases[expense.phase].status == Active && expense.amount > 0
                  && (baseline.Some? ==> baseline.value == expense.currency)
                  && |expense.currency| == 3 && (forall i | 0 <= i < 3 :: 'A' <= expense.currency[i] <= 'Z')
                  && expense.expenseType in {"capex", "opex"}
                  && expense.category in {"labor", "hardware_prototypes", "tooling_nre", "software_licenses", "testing_services", "contingency"})
            && after == if reply.CostRecorded? then db.(expenses := db.expenses + [expense]) else db
  {
  }
}
