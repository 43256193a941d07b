/**
 What the invariants of a project mean to its users: the completion gate, plans that never deadlock,
 the two transitions of a phase, and the costs of a completed phase, which no later call changes.
 */
module PlanGuarantees {
  import opened Wrappers
  import opened Review
  import opened ReviewSafety
  import opened ReviewRuns
  import opened ReviewDrift
  import opened PhaseGraph
  import opened PlanManifest
  import opened Plan
  import opened PlanSafety
  import opened PlanRuns

  // ---------------------------------------------------------------- the completion gate

  /** The evidence for product p is the latest revision of an approved product, accepted by someone who did not write it;
      that revision is certified exactly if the product has not drifted. */
  ghost predicate GoodEvidence(db: PlanDb, drifted: set<Id>, g: GateDecision, p: Id)
    requires p in g.evidence
  {
    var latest := Latest(db.review, p);
    && p in db.review.products && db.review.products[p].status == Approved
    && g.evidence[p].revision == latest && KnownRevision(db.review, latest)
    && g.evidence[p].hash == RevisionOf(db.review, latest).hash
    && g.decidedBy != AuthorOf(db.review, latest)
    && (Certified(db.review, latest) <==> p !in drifted)
  }

  /** The manifest's milestone s is settled by the decision g of the plan in effect. */
  ghost predicate SettledBy(db: PlanDb, drifted: set<Id>, m: Manifest, s: PlanMilestone, g: GateDecision) {
    && g.milestone == s.key
    && db.effective == Some(g.plan) && g.generation == db.generation
    && KnownRevision(db.review, g.plan) && g.decidedBy != AuthorOf(db.review, g.plan)
    && |g.evidence| == |s.deliverableKeys|
    && (forall k | k in s.deliverableKeys :: ProductFor(m, k).Some? && ProductFor(m, k).value in g.evidence)
    && (forall p | p in g.evidence :: GoodEvidence(db, drifted, g, p))
  }

  lemma {:induction false} FindMilestoneAt(ss: seq<PlanMilestone>, i: nat)
    requires i < |ss| && forall j, k | 0 <= j < k < |ss| :: ss[j].key != ss[k].key
    ensures FindMilestone(ss, ss[i].key) == Some(ss[i])
  {
    if i > 0 { FindMilestoneAt(ss[1..], i - 1); }
  }

  lemma CurrentEvidenceIsGood(db: PlanDb, drifted: set<Id>, g: GateDecision, p: Id)
    requires ReviewInvariant(db.review) && Tracked(db.review, drifted)
    requires p in g.evidence && EvidenceSound(db.review, g, p) && EvidenceCurrent(db, p, g.evidence[p])
    ensures GoodEvidence(db, drifted, g, p)
  {
    CertifiedExactly(db.review, drifted, p);
  }

  lemma PassedGateSettles(db: PlanDb, drifted: set<Id>, m: Manifest, i: nat)
    requires ProjectInvariant(db) && Tracked(db.review, drifted)
    requires db.effective.Some? && m == db.manifests[db.effective.value] && i < |m.milestones|
    requires m.milestones[i].key in db.milestones && GatePassed(db, m.milestones[i].key)
    ensures var g := LatestGate(db.gates, m.milestones[i].key, db.generation);
            g.Some? && SettledBy(db, drifted, m, m.milestones[i], db.gates[g.value])
  {
    var s := m.milestones[i];
    var g := db.gates[LatestGate(db.gates, s.key, db.milestones[s.key].generation).value];
    assert GateSound(db, g);
    MilestoneKeysDistinct(m);
    FindMilestoneAt(m.milestones, i);
    forall p | p in g.evidence ensures GoodEvidence(db, drifted, g, p) {
      assert EvidenceSound(db.review, g, p);
      assert KnownRevision(db.review, g.evidence[p].revision);
      CurrentEvidenceIsGood(db, drifted, g, p);
    }
  }

  /** Every milestone that the plan in effect lists for the phase is settled by the latest decision on it. */
  ghost predicate GateSettled(db: PlanDb, drifted: set<Id>, k: Key) {
    && db.effective.Some? && db.effective.value in db.manifests
    && var m := db.manifests[db.effective.value];
       forall i | 0 <= i < |m.milestones| && m.milestones[i].phaseKey == k ::
         var g := LatestGate(db.gates, m.milestones[i].key, db.generation);
         g.Some? && SettledBy(db, drifted, m, m.milestones[i], db.gates[g.value])
  }

  /** Whenever a phase is completed, the latest decision on each of its milestones in the plan in effect was taken by
      someone other than the plan's author, with one row for each deliverable, each row naming the latest revision of an
      approved product that its decider did not write. That revision was itself approved independently, after a review,
      exactly if the product has not drifted. */
  lemma CompletionGate(db: PlanDb, drifted: set<Id>, k: Key, factsFail: bool, vetoed: bool)
    requires ProjectInvariant(db) && Tracked(db.review, drifted)
    requires TransitionPhase(db, k, Completed, factsFail, vetoed).1.PhaseMoved?
    ensures GateSettled(db, drifted, k)
  {
    var m := db.manifests[db.effective.value];
    forall i | 0 <= i < |m.milestones| && m.milestones[i].phaseKey == k
      ensures var g := LatestGate(db.gates, m.milestones[i].key, db.generation);
              g.Some? && SettledBy(db, drifted, m, m.milestones[i], db.gates[g.value])
    {
      var key := m.milestones[i].key;
      assert db.milestones[key].(status := Pending) == MilestoneRow(m.milestones[i], db.generation);
      assert db.milestones[key].phaseKey == k;
      PassedGateSettles(db, drifted, m, i);
    }
  }

  /** The products that have drifted in a run of the project. */
  ghost function ProjectDrift(db: PlanDb, drifted: set<Id>, calls: seq<PlanCall>): set<Id>
    requires Operable(db)
  {
    DriftOf(db.review, drifted, ReviewCalls(db, calls))
  }

  lemma ProjectTracked(db: PlanDb, drifted: set<Id>, calls: seq<PlanCall>)
    requires ProjectInvariant(db) && Tracked(db.review, drifted)
    ensures var after := PlanRun(db, calls); ProjectInvariant(after) && Tracked(after.review, ProjectDrift(db, drifted, calls))
  {
    PlanRunKeeps(db, calls);
    ReviewCallsRun(db, calls);
    TrackedRun(db.review, drifted, ReviewCalls(db, calls));
  }

  /** Beside the products of any run so far, a project begins with its plan as one more draft. */
  lemma BegunTracked(earlier: seq<Call>, actor: Id, project: Id, hash: string)
    ensures var db := Begun(Run(Start(), earlier), actor, project, hash);
            ProjectInvariant(db) && Tracked(db.review, DriftOf(Start(), {}, earlier))
  {
    var review, drifted := Run(Start(), earlier), DriftOf(Start(), {}, earlier);
    TrackedRun(Start(), {}, earlier);
    NewProjectIsValid(review, actor, project, hash);
    var db := Begun(review, actor, project, hash);
    forall p | p in db.review.products ensures TrackedAt(db.review, drifted, p) {
      if p == review.nextId {
        DraftIsCurrent(db.review, p);
      } else {
        assert TrackedAt(review, drifted, p);
        UntouchedStaysCurrent(review, db.review, p);
      }
    }
    TrackedEverywhere(db.review, drifted);
  }

  /** The completion gate in every reachable state: after any run of reviews, a new project, and any run of the project. */
  lemma ReachableCompletion(earlier: seq<Call>, actor: Id, project: Id, hash: string, calls: seq<PlanCall>,
                            k: Key, factsFail: bool, vetoed: bool)
    requires var db := PlanRun(Begun(Run(Start(), earlier), actor, project, hash), calls);
             TransitionPhase(db, k, Completed, factsFail, vetoed).1.PhaseMoved?
    ensures var begun := Begun(Run(Start(), earlier), actor, project, hash);
            GateSettled(PlanRun(begun, calls), ProjectDrift(begun, DriftOf(Start(), {}, earlier), calls), k)
  {
    var begun, drifted := Begun(Run(Start(), earlier), actor, project, hash), DriftOf(Start(), {}, earlier);
    BegunTracked(earlier, actor, project, hash);
    ProjectTracked(begun, drifted, calls);
    CompletionGate(PlanRun(begun, calls), ProjectDrift(begun, drifted, calls), k, factsFail, vetoed);
  }

  /** The evidence for a product whose specification was revised only in draft, and that had not drifted before, is certified. */
  lemma GuardedEvidence(db: PlanDb, drifted: set<Id>, calls: seq<PlanCall>, k: Key, factsFail: bool, vetoed: bool, i: nat, p: Id)
    requires ProjectInvariant(db) && Tracked(db.review, drifted) && p !in drifted
    requires GuardedRun(db.review, ReviewCalls(db, calls), p)
    requires TransitionPhase(PlanRun(db, calls), k, Completed, factsFail, vetoed).1.PhaseMoved?
    ensures var after := PlanRun(db, calls);
            && after.effective.Some? && after.effective.value in after.manifests
            && var m := after.manifests[after.effective.value];
               i < |m.milestones| && m.milestones[i].phaseKey == k ==>
                 var g := LatestGate(after.gates, m.milestones[i].key, after.generation);
                 g.Some? && (p in after.gates[g.value].evidence ==> Certified(after.review, after.gates[g.value].evidence[p].revision))
  {
    var after, now := PlanRun(db, calls), ProjectDrift(db, drifted, calls);
    ProjectTracked(db, drifted, calls);
    GuardedNeverDrifts(db.review, drifted, ReviewCalls(db, calls), p);
    CompletionGate(after, now, k, factsFail, vetoed);
    SettledEvidence(after, now, k, i, p);
  }

  lemma SettledEvidence(db: PlanDb, drifted: set<Id>, k: Key, i: nat, p: Id)
    requires GateSettled(db, drifted, k) && p !in drifted
    ensures var m := db.manifests[db.effective.value];
            i < |m.milestones| && m.milestones[i].phaseKey == k ==>
              var g := LatestGate(db.gates, m.milestones[i].key, db.generation);
              g.Some? && (p in db.gates[g.value].evidence ==> Certified(db.review, db.gates[g.value].evidence[p].revision))
  {
    var m := db.manifests[db.effective.value];
    if i < |m.milestones| && m.milestones[i].phaseKey == k {
      var g := db.gates[LatestGate(db.gates, m.milestones[i].key, db.generation).value];
      assert p in g.evidence ==> GoodEvidence(db, drifted, g, p);
    }
  }

  // ---------------------------------------------------------------- accepting twice

  lemma {:induction false} LatestGateAppended(gates: seq<GateDecision>, gate: GateDecision)
    requires forall i | 0 <= i < |gates| :: gates[i].decidedAt <= gate.decidedAt
    ensures LatestGate(gates + [gate], gate.milestone, gate.generation) == Some(|gates|)
  {
    assert (gates + [gate])[..|gates|] == gates;
  }

  /** While the evidence stays current, whoever accepts the milestone again gets the decision just recorded and changes nothing. */
  lemma AcceptTwice(db: PlanDb, actor: Id, k: Key, now: int, vetoed: bool, again: Id, later: int, vetoedLater: bool)
    requires AcceptMilestone(db, actor, k, now, vetoed).0 != db
    requires forall i | 0 <= i < |db.gates| :: db.gates[i].decidedAt <= now
    requires again != AuthorOf(db.review, db.effective.value)
    ensures var after := AcceptMilestone(db, actor, k, now, vetoed).0;
            AcceptMilestone(after, again, k, later, vetoedLater) == (after, MilestoneAccepted(|db.gates|))
  {
    AcceptRecords(db, actor, k, now, vetoed);
    var m := db.manifests[db.effective.value];
    var evidence := Collect(db, m, actor, db.milestones[k].deliverableKeys).evidence;
    CollectSound(db, m, actor, db.milestones[k].deliverableKeys);
    var gate := FreshGate(db, actor, k, now, db.effective.value, evidence);
    LatestGateAppended(db.gates, gate);
    var after := Pass(db, k, gate);
    forall p | p in evidence ensures EvidenceCurrent(after, p, evidence[p]) {
      assert AdmissibleEvidence(db, actor, p, evidence[p]);
    }
    assert StillPassed(after, k);
  }

  // ---------------------------------------------------------------- a plan put into effect

  /** The statuses survive: a phase that was there keeps its own, a new one is not started. */
  ghost predicate StatusesSurvive(db: PlanDb, after: PlanDb) {
    && (forall k | k in after.phases && k in db.phases :: after.phases[k].status == db.phases[k].status)
    && (forall k | k in after.phases && k !in db.phases :: after.phases[k].status == NotStarted)
  }

  lemma ApplicationStatuses(db: PlanDb, requested: Option<RevisionId>, expected: nat)
    requires db.plan in db.review.products && ApplyPlan(db, requested, expected).1.PlanApplied?
    ensures StatusesSurvive(db, ApplyPlan(db, requested, expected).0)
  {
    var (after, reply) := ApplyPlan(db, requested, expected);
    ApplicationShape(db, requested, expected);
    if db.effective != Some(reply.revision) {
      var m := db.manifests[reply.revision];
      ProjectPhases(db, reply.revision, m);
      ProjectedStatuses(db, after, m);
    }
  }

  /** An accepted application makes the target the approved plan in effect, counts one generation unless it was already
      in effect, projects exactly its phases and milestones, and keeps the status of each phase that was there before. */
  lemma ApplicationProjects(db: PlanDb, requested: Option<RevisionId>, expected: nat)
    requires Schema(db.review) && PlanInvariant(db) && ApplyPlan(db, requested, expected).1.PlanApplied?
    ensures var (after, reply) := ApplyPlan(db, requested, expected);
            && Target(db, requested) == Some(reply.revision) && RevisionApproved(db.review, reply.revision)
            && after.effective == Some(reply.revision)
            && after.generation == reply.generation == |after.applications|
            && after.generation == (if db.effective == Some(reply.revision) then db.generation else db.generation + 1)
            && (forall k :: k in after.phases <==> k in PhaseKeys(db.manifests[reply.revision]))
            && (forall k :: k in after.milestones <==> k in MilestoneKeys(db.manifests[reply.revision]))
            && StatusesSurvive(db, after)
  {
    var (after, reply) := ApplyPlan(db, requested, expected);
    ApplicationShape(db, requested, expected);
    ApplicationStatuses(db, requested, expected);
    if db.effective != Some(reply.revision) {
      ProjectPhases(db, reply.revision, db.manifests[reply.revision]);
      ProjectMilestones(db, reply.revision, db.manifests[reply.revision]);
    }
  }

  lemma ProjectedStatuses(db: PlanDb, after: PlanDb, m: Manifest)
    requires forall k :: k in after.phases <==> k in PhaseKeys(m)
    requires forall i | 0 <= i < |m.phases| ::
               m.phases[i].key in after.phases && after.phases[m.phases[i].key] == PhaseRow(db.phases, m.phases[i], db.generation + 1)
    ensures StatusesSurvive(db, after)
  {
    forall k | k in after.phases
      ensures after.phases[k].status == if k in db.phases then db.phases[k].status else NotStarted
    {
      ListedPhase(m, k);
      var i :| 0 <= i < |m.phases| && m.phases[i].key == k;
      assert after.phases[m.phases[i].key] == PhaseRow(db.phases, m.phases[i], db.generation + 1);
    }
  }

  /** The revision in effect, approved and valid, can be applied again without effect. */
  lemma ReapplicationIsIdle(db: PlanDb, r: RevisionId)
    requires db.plan in db.review.products && db.effective == Some(r) && r.product == db.plan
    requires r in db.manifests && ValidManifest(db.manifests[r]) && RevisionApproved(db.review, r)
    ensures ApplyPlan(db, Some(r), db.review.products[db.plan].rowVersion) == (db, PlanApplied(r, db.generation))
  {
  }

  lemma BumpKeepsApproval(db: Db, p: Id, r: RevisionId)
    requires p in db.products && RevisionApproved(db, r)
    ensures RevisionApproved(Bump(db, p), r)
  {
  }

  /** Applying the same revision again changes nothing. */
  lemma ApplyTwice(db: PlanDb, requested: Option<RevisionId>, expected: nat)
    requires Bound(db) && ApplyPlan(db, requested, expected).1.PlanApplied?
    ensures var (after, reply) := ApplyPlan(db, requested, expected);
            && after.plan in after.review.products
            && ApplyPlan(after, Some(reply.revision), after.review.products[after.plan].rowVersion)
               == (after, PlanApplied(reply.revision, after.generation))
  {
    var (after, reply) := ApplyPlan(db, requested, expected);
    ApplicationShape(db, requested, expected);
    BumpKeepsApproval(db.review, db.plan, reply.revision);
    ReapplicationIsIdle(after, reply.revision);
  }

  /** An accepted plan revision is the next one to be applied, with the manifest it was given, once it is approved. */
  lemma RevisedPlanIsTarget(db: PlanDb, actor: Id, expected: nat, hash: string, m: Manifest, vetoed: bool)
    requires PlanInvariant(db) && RevisePlan(db, actor, expected, hash, m, vetoed).1.PlanRevised?
    ensures var (after, reply) := RevisePlan(db, actor, expected, hash, m, vetoed);
            && Target(after, None) == Some(reply.revision) && Latest(after.review, db.plan) == reply.revision
            && after.manifests == db.manifests[reply.revision := m] && reply.revision !in db.manifests
            && after.review.products[db.plan].status == Draft && !HasOpen(after.review, db.plan)
            && after.effective == db.effective
  {
    var (after, reply) := RevisePlan(db, actor, expected, hash, m, vetoed);
    AddRevisionOpenness(db.review, db.plan, Revision(hash, actor));
    assert reply.revision in db.manifests ==> KnownRevision(db.review, reply.revision);
  }

  // ---------------------------------------------------------------- dependencies never deadlock

  ghost predicate Movable(db: PlanDb, k: Key) {
    k in db.phases && db.phases[k].status != Completed && (db.phases[k].status == NotStarted ==> !Unmet(db, k))
  }

  /** The status a phase that is not completed may move to. */
  function NextStatus(status: PhaseStatus): PhaseStatus {
    if status == NotStarted then Active else Completed
  }

  lemma {:induction false} FirstUnfinished(db: PlanDb, order: seq<Key>, n: nat) returns (k: Key)
    requires n < |order| && order[n] in db.phases && db.phases[order[n]].status != Completed
    requires forall j, d | 0 <= j < |order| && order[j] in db.phases && d in db.phases[order[j]].dependsOn :: d in order[..j]
    ensures Movable(db, k)
    decreases n
  {
    k := order[n];
    if Unmet(db, k) {
      var d :| d in db.phases[k].dependsOn && d in db.phases && db.phases[d].status != Completed;
      var j :| 0 <= j < n && order[j] == d;
      k := FirstUnfinished(db, order, j);
    }
  }

  lemma PlanOrder(db: PlanDb) returns (order: seq<Key>)
    requires Bound(db) && Projected(db)
    ensures forall k | k in db.phases :: k in order
    ensures forall j, d | 0 <= j < |order| && order[j] in db.phases && d in db.phases[order[j]].dependsOn :: d in order[..j]
  {
    if db.effective.None? { return []; }
    var m := db.manifests[db.effective.value];
    order := ValidPlanHasOrder(m);
    forall k | k in db.phases ensures k in order {
      ListedPhase(m, k);
      var i :| 0 <= i < |m.phases| && m.phases[i].key == k;
    }
    forall j, d | 0 <= j < |order| && order[j] in db.phases && d in db.phases[order[j]].dependsOn ensures d in order[..j] {
      ListedPhase(m, order[j]);
      var i :| 0 <= i < |m.phases| && m.phases[i].key == order[j];
      assert db.phases[m.phases[i].key].dependsOn == m.phases[i].dependsOn;
    }
  }

  /** While some phase is not completed, some phase has an allowed transition that its dependencies do not refuse. */
  lemma NeverDeadlocked(db: PlanDb, unfinished: Key) returns (k: Key)
    requires Bound(db) && Projected(db) && unfinished in db.phases && db.phases[unfinished].status != Completed
    ensures Movable(db, k) && TransitionAllowed(db.phases[k].status, NextStatus(db.phases[k].status))
    ensures forall factsFail, vetoed ::
              TransitionPhase(db, k, NextStatus(db.phases[k].status), factsFail, vetoed).1
              !in {PlanRefused(TransitionInvalid), PlanRefused(DependencyNotMet), PlanRefused(PhaseNotFound)}
  {
    var order := PlanOrder(db);
    var n :| 0 <= n < |order| && order[n] == unfinished;
    k := FirstUnfinished(db, order, n);
  }

  function Rank(status: PhaseStatus): (rank: nat)
    ensures rank <= 2
  {
    match status case NotStarted => 0 case Active => 1 case Completed => 2
  }

  /** The transitions still to be made. */
  function Remaining(phases: map<Key, Phase>): nat {
    |set k | k in phases && phases[k].status != Completed| + |set k | k in phases && phases[k].status == NotStarted|
  }

  lemma RemainingDrops(phases: map<Key, Phase>, k: Key)
    requires k in phases && phases[k].status != Completed
    ensures Remaining(phases[k := phases[k].(status := NextStatus(phases[k].status))]) == Remaining(phases) - 1
  {
    var after := phases[k := phases[k].(status := NextStatus(phases[k].status))];
    var undone, undoneAfter := (set x | x in phases && phases[x].status != Completed), (set x | x in after && after[x].status != Completed);
    var idle, idleAfter := (set x | x in phases && phases[x].status == NotStarted), (set x | x in after && after[x].status == NotStarted);
    if phases[k].status == NotStarted {
      assert undoneAfter == undone && idleAfter == idle - {k};
    } else {
      assert undoneAfter == undone - {k} && idleAfter == idle;
    }
  }

  ghost predicate AllCompleted(db: PlanDb) {
    forall k | k in db.phases :: db.phases[k].status == Completed
  }

  ghost predicate AllPassed(db: PlanDb) {
    forall s | s in db.milestones :: GatePassed(db, s)
  }

  function Advance(k: Key, from: PhaseStatus): PlanCall {
    OnTransition(k, NextStatus(from), false, false)
  }

  /** With every milestone passed, a phase that can move does, and every milestone stays passed. */
  lemma AdvanceMoves(db: PlanDb, k: Key)
    requires Operable(db) && Movable(db, k) && AllPassed(db)
    ensures var after := PlanStep(db, Advance(k, db.phases[k].status));
            AllPassed(after) && Remaining(after.phases) == Remaining(db.phases) - 1
  {
    var to := NextStatus(db.phases[k].status);
    var after := db.(phases := db.phases[k := db.phases[k].(status := to)]);
    assert TransitionPhase(db, k, to, false, false).0 == after;
    forall s | s in db.milestones ensures GatePassed(after, s) {
      assert GatePassed(db, s);
    }
    RemainingDrops(db.phases, k);
  }

  lemma NoneRemaining(db: PlanDb)
    requires AllCompleted(db)
    ensures Remaining(db.phases) == 0
  {
    assert (set k | k in db.phases && db.phases[k].status != Completed) == {};
    assert (set k | k in db.phases && db.phases[k].status == NotStarted) == {};
  }

  predicate OnlyTransitions(calls: seq<PlanCall>) {
    forall i | 0 <= i < |calls| :: calls[i].OnTransition?
  }

  /** A run of transitions alone that ends with every phase completed. */
  ghost predicate Completes(db: PlanDb, calls: seq<PlanCall>)
    requires Operable(db)
  {
    OnlyTransitions(calls) && AllCompleted(PlanRun(db, calls))
  }

  lemma CompletesAfter(db: PlanDb, call: PlanCall, rest: seq<PlanCall>)
    requires Operable(db) && call.OnTransition? && Completes(PlanNext(db, call), rest)
    ensures Completes(db, [call] + rest)
  {
    assert ([call] + rest)[1..] == rest;
  }

  lemma AdvanceProjects(db: PlanDb, k: Key)
    requires Operable(db) && Bound(db) && Projected(db) && Movable(db, k)
    ensures var after := PlanStep(db, Advance(k, db.phases[k].status)); Bound(after) && Projected(after)
  {
    var to := NextStatus(db.phases[k].status);
    StatusProjects(db, k, to);
    var (after, reply) := TransitionPhase(db, k, to, false, false);
    assert after == db || after == db.(phases := db.phases[k := db.phases[k].(status := to)]);
  }

  lemma StatusProjects(db: PlanDb, k: Key, to: PhaseStatus)
    requires Bound(db) && Projected(db) && k in db.phases
    ensures var after := db.(phases := db.phases[k := db.phases[k].(status := to)]); Bound(after) && Projected(after)
  {
  }

  /** With every milestone passed, transitions alone complete all phases, in exactly as many calls as there are steps left. */
  lemma {:induction false} CanBeCompleted(db: PlanDb) returns (calls: seq<PlanCall>)
    requires Operable(db) && Bound(db) && Projected(db) && AllPassed(db)
    ensures Completes(db, calls) && |calls| == Remaining(db.phases)
    decreases Remaining(db.phases)
  {
    if AllCompleted(db) {
      NoneRemaining(db);
      return [];
    }
    var unfinished :| unfinished in db.phases && db.phases[unfinished].status != Completed;
    var k := NeverDeadlocked(db, unfinished);
    var call := Advance(k, db.phases[k].status);
    AdvanceMoves(db, k);
    AdvanceProjects(db, k);
    var rest := CanBeCompleted(PlanNext(db, call));
    CompletesAfter(db, call, rest);
    calls := [call] + rest;
  }

  // ---------------------------------------------------------------- started phases and their dependencies

  ghost predicate StartedAfterDependencies(db: PlanDb) {
    forall k | k in db.phases && db.phases[k].status != NotStarted :: !Unmet(db, k)
  }

  ghost predicate PhaseKept(db: PlanDb, after: PlanDb, call: PlanCall, k: Key) {
    && (k in db.phases <==> k in after.phases)
    && (k in db.phases ==>
          && after.phases[k].dependsOn == db.phases[k].dependsOn
          && Rank(after.phases[k].status) == Rank(db.phases[k].status) + if Moves(db, call, k) then 1 else 0)
  }

  lemma OperationPhase(db: PlanDb, call: PlanCall, k: Key)
    requires db.plan in db.review.products && !call.OnReview? && !call.OnApply?
    ensures PhaseKept(db, PlanAnswer(db, call).0, call, k)
  {
  }

  /** Outside applications a phase row changes only its status, by one allowed transition of its own. */
  lemma PhaseStep(db: PlanDb, call: PlanCall, k: Key)
    requires Operable(db) && !call.OnApply?
    ensures PhaseKept(db, PlanStep(db, call), call, k)
  {
    if !call.OnReview? { OperationPhase(db, call, k); }
  }

  /** A phase that has just been opened has only completed dependencies. */
  lemma OpenedAfterDependencies(db: PlanDb, call: PlanCall, k: Key)
    requires call.OnTransition? && Moves(db, call, k)
    ensures k in db.phases && (db.phases[k].status == NotStarted ==> !Unmet(db, k))
  {
  }

  /** Between applications of a plan, a started phase has only completed dependencies. */
  lemma DependenciesStayCompleted(db: PlanDb, call: PlanCall)
    requires Operable(db) && !call.OnApply? && StartedAfterDependencies(db)
    ensures StartedAfterDependencies(PlanStep(db, call))
  {
    var after := PlanStep(db, call);
    forall k | k in after.phases && after.phases[k].status != NotStarted ensures !Unmet(after, k) {
      PhaseStep(db, call, k);
      if Moves(db, call, k) { OpenedAfterDependencies(db, call, k); }
      forall d | d in db.phases[k].dependsOn && d in after.phases ensures after.phases[d].status == Completed {
        PhaseStep(db, call, d);
      }
    }
  }

  /** An application keeps that exactly when the new manifest gives started phases completed dependencies only. */
  lemma ApplicationOrderExact(db: PlanDb, target: RevisionId, m: Manifest)
    requires db.plan in db.review.products && ValidManifest(m)
    ensures StartedAfterDependencies(Project(db, target, m)) <==>
            forall i, d | 0 <= i < |m.phases| && d in m.phases[i].dependsOn ::
              m.phases[i].key in db.phases && db.phases[m.phases[i].key].status != NotStarted ==>
                d in db.phases && db.phases[d].status == Completed
  {
    var after := Project(db, target, m);
    ProjectPhases(db, target, m);
    ProjectedStatuses(db, after, m);
    if StartedAfterDependencies(after) {
      forall i, d | 0 <= i < |m.phases| && d in m.phases[i].dependsOn
                    && m.phases[i].key in db.phases && db.phases[m.phases[i].key].status != NotStarted
        ensures d in db.phases && db.phases[d].status == Completed
      {
        var k := m.phases[i].key;
        assert ValidDependencies(m, m.phases[i]);
        assert d in after.phases && !Unmet(after, k) && d in after.phases[k].dependsOn;
      }
    }
    if forall i, d | 0 <= i < |m.phases| && d in m.phases[i].dependsOn ::
         m.phases[i].key in db.phases && db.phases[m.phases[i].key].status != NotStarted ==>
           d in db.phases && db.phases[d].status == Completed
    {
      forall k | k in after.phases && after.phases[k].status != NotStarted ensures !Unmet(after, k) {
        ListedPhase(m, k);
        var i :| 0 <= i < |m.phases| && m.phases[i].key == k;
      }
    }
  }

  // ---------------------------------------------------------------- at most two transitions

  predicate Moves(db: PlanDb, call: PlanCall, k: Key) {
    call.OnTransition? && call.phase == k && TransitionPhase(db, k, call.to, call.factsFail, call.vetoed).1.PhaseMoved?
  }

  ghost function MovesOf(db: PlanDb, calls: seq<PlanCall>, k: Key): nat
    requires Operable(db)
    decreases |calls|
  {
    if calls == [] then 0
    else (if Moves(db, calls[0], k) then 1 else 0) + MovesOf(PlanNext(db, calls[0]), calls[1..], k)
  }

  /** The phase exists in every state of the run. */
  ghost predicate Present(db: PlanDb, calls: seq<PlanCall>, k: Key)
    requires Operable(db)
    decreases |calls|
  {
    k in db.phases && (calls != [] ==> Present(PlanNext(db, calls[0]), calls[1..], k))
  }

  lemma StepRank(db: PlanDb, call: PlanCall, k: Key)
    requires Operable(db)
    requires k in db.phases && k in PlanStep(db, call).phases
    ensures Rank(PlanStep(db, call).phases[k].status) == Rank(db.phases[k].status) + if Moves(db, call, k) then 1 else 0
  {
    if call.OnApply? {
      if ApplyPlan(db, call.requested, call.expected).1.PlanApplied? { ApplicationStatuses(db, call.requested, call.expected); }
    } else {
      PhaseStep(db, call, k);
    }
  }

  /** While it exists, a phase moves once for each step of its life cycle: at most twice, whatever is called. */
  lemma {:induction false} MovesAreRanks(db: PlanDb, calls: seq<PlanCall>, k: Key)
    requires Operable(db) && Present(db, calls, k)
    ensures k in PlanRun(db, calls).phases
    ensures MovesOf(db, calls, k) == Rank(PlanRun(db, calls).phases[k].status) - Rank(db.phases[k].status) <= 2
    decreases |calls|
  {
    if calls != [] {
      StepRank(db, calls[0], k);
      MovesAreRanks(PlanNext(db, calls[0]), calls[1..], k);
    }
  }

  // ---------------------------------------------------------------- the costs of a completed phase

  function WorkOf(work: seq<WorkRecord>, k: Key): seq<WorkRecord> {
    if work == [] then []
    else WorkOf(work[..|work| - 1], k) + if work[|work| - 1].phase == k then [work[|work| - 1]] else []
  }

  function ExpensesOf(expenses: seq<Expense>, k: Key): seq<Expense> {
    if expenses == [] then []
    else ExpensesOf(expenses[..|expenses| - 1], k) + if expenses[|expenses| - 1].phase == k then [expenses[|expenses| - 1]] else []
  }

  predicate Closed(db: PlanDb, k: Key) {
    k in db.phases && db.phases[k].status == Completed && HasCost(db.work, db.expenses, k)
  }

  lemma WorkElsewhere(db: PlanDb, record: WorkRecord, k: Key)
    requires k in db.phases && db.phases[k].status != Active
    ensures var after := LogWork(db, record).0; db.work <= after.work && WorkOf(after.work, k) == WorkOf(db.work, k)
  {
    var after := LogWork(db, record).0;
    if after != db { assert after.work[..|db.work|] == db.work; }
  }

  lemma ExpenseElsewhere(db: PlanDb, expense: Expense, baseline: Option<string>, k: Key)
    requires k in db.phases && db.phases[k].status != Active
    ensures var after := RecordExpense(db, expense, baseline).0;
            db.expenses <= after.expenses && ExpensesOf(after.expenses, k) == ExpensesOf(db.expenses, k)
  {
    var after := RecordExpense(db, expense, baseline).0;
    if after != db { assert after.expenses[..|db.expenses|] == db.expenses; }
  }

  lemma OperationCost(db: PlanDb, call: PlanCall, k: Key)
    requires db.plan in db.review.products && !call.OnReview? && k in db.phases && db.phases[k].status != Active
    ensures CostsKept(db, PlanAnswer(db, call).0, k)
  {
    match call
    case OnWork(record) => WorkElsewhere(db, record, k);
    case OnExpense(expense, baseline) => ExpenseElsewhere(db, expense, baseline, k);
    case _ => CostsUntouched(db, call);
  }

  lemma CostsUntouched(db: PlanDb, call: PlanCall)
    requires db.plan in db.review.products && !call.OnReview? && !call.OnWork? && !call.OnExpense?
    ensures PlanAnswer(db, call).0.work == db.work && PlanAnswer(db, call).0.expenses == db.expenses
  {
  }

  ghost predicate CostsKept(db: PlanDb, after: PlanDb, k: Key) {
    && db.work <= after.work && db.expenses <= after.expenses
    && WorkOf(after.work, k) == WorkOf(db.work, k) && ExpensesOf(after.expenses, k) == ExpensesOf(db.expenses, k)
  }

  /** Records are only added, and only to an active phase. */
  lemma CostStep(db: PlanDb, call: PlanCall, k: Key)
    requires Operable(db) && k in db.phases && db.phases[k].status != Active
    ensures CostsKept(db, PlanStep(db, call), k)
  {
    if !call.OnReview? { OperationCost(db, call, k); }
  }

  lemma CostedPhaseStays(db: PlanDb, call: PlanCall, k: Key)
    requires Operable(db) && k in db.phases && HasCost(db.work, db.expenses, k)
    ensures k in PlanStep(db, call).phases
  {
    if call.OnApply? {
      var (after, reply) := ApplyPlan(db, call.requested, call.expected);
      if reply.PlanApplied? {
        ApplicationShape(db, call.requested, call.expected);
        if after != db {
          ProjectPhases(db, reply.revision, db.manifests[reply.revision]);
          assert k in PhaseKeys(db.manifests[reply.revision]);
        }
      }
    } else {
      PhaseStep(db, call, k);
    }
  }

  /** One step from a completed phase with cost: it stays, completed, with the same records. */
  lemma ClosedStep(db: PlanDb, call: PlanCall, k: Key)
    requires Operable(db) && Closed(db, k)
    ensures var after := PlanStep(db, call);
            Closed(after, k) && CostsKept(db, after, k)
  {
    CostedPhaseStays(db, call, k);
    StepRank(db, call, k);
    CostStep(db, call, k);
    CostStays(db, PlanStep(db, call), k);
  }

  lemma CostStays(db: PlanDb, after: PlanDb, k: Key)
    requires HasCost(db.work, db.expenses, k) && db.work <= after.work && db.expenses <= after.expenses
    ensures HasCost(after.work, after.expenses, k)
  {
    if i :| 0 <= i < |db.work| && db.work[i].phase == k { assert after.work[i] == db.work[i]; }
    if i :| 0 <= i < |db.expenses| && db.expenses[i].phase == k { assert after.expenses[i] == db.expenses[i]; }
  }

  /** In every later state a completed phase with cost still exists, is still completed, and has the same records. */
  lemma {:induction false} CompletedCostsFreeze(db: PlanDb, calls: seq<PlanCall>, k: Key)
    requires Operable(db) && Closed(db, k)
    ensures var after := PlanRun(db, calls);
            Closed(after, k) && CostsKept(db, after, k)
    decreases |calls|
  {
    if calls != [] {
      ClosedStep(db, calls[0], k);
      CompletedCostsFreeze(PlanNext(db, calls[0]), calls[1..], k);
    }
  }

  // ---------------------------------------------------------------- every reachable state

  /** From any state of the review tables, a new project and any run of calls: the plan in effect is an approved revision,
      its generation counts the applications, and exactly its phases and milestones are projected. */
  lemma ReachablePlan(review: Db, actor: Id, project: Id, hash: string, calls: seq<PlanCall>)
    requires Schema(review)
    ensures var db := PlanRun(Begun(review, actor, project, hash), calls);
            && db.generation == |db.applications|
            && (db.effective.None? ==> db.phases == map[] && db.milestones == map[])
            && (db.effective.Some? ==>
                  && db.effective.value in db.manifests && RevisionApproved(db.review, db.effective.value)
                  && (forall k :: k in db.phases <==> k in PhaseKeys(db.manifests[db.effective.value]))
                  && (forall k :: k in db.milestones <==> k in MilestoneKeys(db.manifests[db.effective.value]))
                  && (forall k | k in db.milestones :: db.milestones[k].generation == db.generation))
  {
    PlanRunKeeps(Begun(review, actor, project, hash), calls);
    var db := PlanRun(Begun(review, actor, project, hash), calls);
    if db.effective.Some? {
      var m := db.manifests[db.effective.value];
      forall k | k in db.milestones ensures db.milestones[k].generation == db.generation {
        ListedMilestone(m, k);
        var i :| 0 <= i < |m.milestones| && m.milestones[i].key == k;
        assert db.milestones[m.milestones[i].key].(status := Pending) == MilestoneRow(m.milestones[i], db.generation);
      }
    }
  }
}
