/**
 Runs of a project: any sequence of review calls, plan revisions and applications, milestone acceptances,
 phase transitions and cost records, by anybody and in any order, keeps `ReviewInvariant` and `PlanInvariant`.
 */
module PlanRuns {
  import opened Wrappers
  import opened Review
  import opened ReviewSafety
  import opened ReviewRuns
  import opened PhaseGraph
  import opened PlanManifest
  import opened Plan
  import opened PlanSafety

  // ---------------------------------------------------------------- a new project

  /** A project begins with its plan as a draft product, the default manifest and nothing in effect. */
  function NewProject(review: Db, actor: Id, project: Id, hash: string): PlanDb {
    PlanDb(Insert(review, actor, project, "PLAN-001", PlanType, hash), project, review.nextId,
           map[RevisionId(review.nextId, 1) := DefaultManifest], None, 0, [], map[], map[], [], [], [])
  }

  /** What the database itself sees to: the constraints of the review tables, and a plan that exists. */
  ghost predicate Operable(db: PlanDb) {
    Schema(db.review) && db.plan in db.review.products
  }

  ghost predicate ProjectInvariant(db: PlanDb) {
    ReviewInvariant(db.review) && PlanInvariant(db)
  }

  lemma NewProjectIsValid(review: Db, actor: Id, project: Id, hash: string)
    requires Schema(review)
    ensures var db := NewProject(review, actor, project, hash); Schema(db.review) && PlanInvariant(db)
    ensures ReviewInvariant(review) ==> ReviewInvariant(NewProject(review, actor, project, hash).review)
  {
    InsertSchema(review, actor, project, "PLAN-001", PlanType, hash);
    if ReviewInvariant(review) { InsertKeeps(review, actor, project, "PLAN-001", PlanType, hash); }
    NewPlanIsValid(review, actor, project, hash);
  }

  lemma NewPlanIsValid(review: Db, actor: Id, project: Id, hash: string)
    ensures PlanInvariant(NewProject(review, actor, project, hash))
  {
    DefaultIsValid();
  }

  /** A project just created beside any products that are there already. */
  ghost function Begun(review: Db, actor: Id, project: Id, hash: string): (db: PlanDb)
    requires Schema(review)
    ensures Operable(db) && PlanInvariant(db)
  {
    NewProjectIsValid(review, actor, project, hash);
    NewProject(review, actor, project, hash)
  }

  // ---------------------------------------------------------------- accepting a milestone

  /** What acceptance checks of each product it takes as evidence. */
  ghost predicate AdmissibleEvidence(db: PlanDb, actor: Id, p: Id, e: Evidence) {
    && EvidenceCurrent(db, p, e)
    && KnownRevision(db.review, e.revision)
    && e.hash == RevisionOf(db.review, e.revision).hash
    && actor != AuthorOf(db.review, e.revision)
  }

  /** A complete collection has one current, independent row for each deliverable, and no other. */
  lemma {:induction false} CollectSound(db: PlanDb, m: Manifest, actor: Id, keys: seq<Key>)
    requires Collect(db, m, actor, keys).Complete?
    ensures var e := Collect(db, m, actor, keys).evidence;
            && |e| == |keys|
            && (forall k | k in keys :: ProductFor(m, k).Some? && ProductFor(m, k).value in e)
            && (forall p | p in e :: AdmissibleEvidence(db, actor, p, e[p]))
  {
    if keys != [] {
      var rest, k := keys[..|keys| - 1], keys[|keys| - 1];
      assert keys == rest + [k];
      CollectSound(db, m, actor, rest);
    }
  }

  /** The tables that the soundness of a gate decision and the projection of the plan rest on. */
  ghost predicate SameFoundation(db: PlanDb, after: PlanDb) {
    && after.review == db.review && after.project == db.project && after.plan == db.plan && after.manifests == db.manifests
    && after.effective == db.effective && after.generation == db.generation && after.applications == db.applications
    && after.milestones.Keys == db.milestones.Keys && after.phases.Keys == db.phases.Keys
  }

  lemma GateFrame(db: PlanDb, after: PlanDb, g: GateDecision)
    requires GateSound(db, g) && SameFoundation(db, after)
    ensures GateSound(after, g)
  {
  }

  lemma GatesFrame(db: PlanDb, after: PlanDb)
    requires GatesSound(db) && SameFoundation(db, after) && after.gates == db.gates
    ensures GatesSound(after)
  {
    forall i | 0 <= i < |after.gates| ensures GateSound(after, after.gates[i]) {
      GateFrame(db, after, db.gates[i]);
    }
  }

  lemma BindingFrame(db: PlanDb, after: PlanDb)
    requires Bound(db) && ApplicationsCounted(db) && SameFoundation(db, after)
    ensures Bound(after) && ApplicationsCounted(after)
  {
  }

  lemma GateAppended(db: PlanDb, after: PlanDb, gate: GateDecision)
    requires GatesSound(db) && GateSound(db, gate) && SameFoundation(db, after) && after.gates == db.gates + [gate]
    ensures GatesSound(after)
  {
    forall i | 0 <= i < |after.gates| ensures GateSound(after, after.gates[i]) {
      GateFrame(db, after, if i < |db.gates| then db.gates[i] else gate);
    }
  }

  lemma PassProjects(db: PlanDb, k: Key, gate: GateDecision)
    requires k in db.milestones && Projected(db)
    ensures Projected(Pass(db, k, gate))
  {
  }

  lemma PassKeeps(db: PlanDb, k: Key, gate: GateDecision)
    requires PlanInvariant(db) && k in db.milestones && GateSound(db, gate)
    ensures PlanInvariant(Pass(db, k, gate))
  {
    var after := Pass(db, k, gate);
    PassFoundation(db, k, gate);
    BindingFrame(db, after);
    GateAppended(db, after, gate);
    PassProjects(db, k, gate);
  }

  lemma PassFoundation(db: PlanDb, k: Key, gate: GateDecision)
    requires k in db.milestones
    ensures SameFoundation(db, Pass(db, k, gate)) && Pass(db, k, gate).gates == db.gates + [gate]
    ensures CostsAttached(db) ==> CostsAttached(Pass(db, k, gate))
  {
    assert Pass(db, k, gate).milestones.Keys == db.milestones.Keys;
  }

  lemma EvidenceIsSound(db: PlanDb, gate: GateDecision, p: Id)
    requires p in gate.evidence && AdmissibleEvidence(db, gate.decidedBy, p, gate.evidence[p])
    ensures EvidenceSound(db.review, gate, p)
  {
  }

  lemma NewGateSound(db: PlanDb, m: Manifest, gate: GateDecision)
    requires PlanInvariant(db) && gate.milestone in db.milestones
    requires db.effective == Some(gate.plan) && gate.plan in db.manifests && m == db.manifests[gate.plan]
    requires KnownRevision(db.review, gate.plan) && gate.decidedBy != AuthorOf(db.review, gate.plan)
    requires gate.generation == db.generation && SameMilestone(m, gate.milestone, db.milestones[gate.milestone])
    requires Collect(db, m, gate.decidedBy, db.milestones[gate.milestone].deliverableKeys) == Complete(gate.evidence)
    ensures GateSound(db, gate)
  {
    CollectSound(db, m, gate.decidedBy, db.milestones[gate.milestone].deliverableKeys);
    forall p | p in gate.evidence ensures EvidenceSound(db.review, gate, p) {
      EvidenceIsSound(db, gate, p);
    }
  }

  /** The gate decision a fresh acceptance would record. */
  function FreshGate(db: PlanDb, actor: Id, k: Key, now: int, plan: RevisionId, evidence: map<Id, Evidence>): GateDecision {
    GateDecision(k, plan, db.generation, actor, now, evidence)
  }

  /** An acceptance that changes anything has passed every check, and records one decision with the evidence collected. */
  lemma AcceptRecords(db: PlanDb, actor: Id, k: Key, now: int, vetoed: bool)
    requires AcceptMilestone(db, actor, k, now, vetoed).0 != db
    ensures k in db.milestones && db.effective.Some? && db.effective.value in db.manifests && !vetoed
    ensures KnownRevision(db.review, db.effective.value) && actor != AuthorOf(db.review, db.effective.value)
    ensures SameMilestone(db.manifests[db.effective.value], k, db.milestones[k])
    ensures var collected := Collect(db, db.manifests[db.effective.value], actor, db.milestones[k].deliverableKeys);
            && collected.Complete?
            && AcceptMilestone(db, actor, k, now, vetoed)
               == (Pass(db, k, FreshGate(db, actor, k, now, db.effective.value, collected.evidence)), MilestoneAccepted(|db.gates|))
  {
  }

  lemma AcceptMilestoneKeeps(db: PlanDb, actor: Id, k: Key, now: int, vetoed: bool)
    requires PlanInvariant(db)
    ensures PlanInvariant(AcceptMilestone(db, actor, k, now, vetoed).0)
  {
    if AcceptMilestone(db, actor, k, now, vetoed).0 != db {
      AcceptRecords(db, actor, k, now, vetoed);
      var m := db.manifests[db.effective.value];
      var evidence := Collect(db, m, actor, db.milestones[k].deliverableKeys).evidence;
      var gate := FreshGate(db, actor, k, now, db.effective.value, evidence);
      NewGateSound(db, m, gate);
      PassKeeps(db, k, gate);
    }
  }

  // ---------------------------------------------------------------- phases and costs

  lemma PhaseStatusKeeps(db: PlanDb, k: Key, to: PhaseStatus)
    requires PlanInvariant(db) && k in db.phases
    ensures PlanInvariant(db.(phases := db.phases[k := db.phases[k].(status := to)]))
  {
    var after := db.(phases := db.phases[k := db.phases[k].(status := to)]);
    GatesFrame(db, after);
    BindingFrame(db, after);
    assert Projected(after) && CostsAttached(after);
  }

  lemma CostsKeep(db: PlanDb, after: PlanDb)
    requires PlanInvariant(db) && CostsAttached(after) && after == db.(work := after.work, expenses := after.expenses)
    ensures PlanInvariant(after)
  {
    GatesFrame(db, after);
    BindingFrame(db, after);
    assert Projected(after);
  }

  // ---------------------------------------------------------------- runs

  datatype PlanCall =
    | OnReview(call: Call)
    | OnRevise(actor: Id, expected: nat, hash: string, manifest: Manifest, vetoed: bool)
    | OnApply(requested: Option<RevisionId>, expected: nat)
    | OnAccept(actor: Id, milestone: Key, now: int, vetoed: bool)
    | OnTransition(phase: Key, to: PhaseStatus, factsFail: bool, vetoed: bool)
    | OnWork(record: WorkRecord)
    | OnExpense(expense: Expense, baseline: Option<string>)

  ghost function PlanAnswer(db: PlanDb, call: PlanCall): (PlanDb, PlanReply)
    requires db.plan in db.review.products && !call.OnReview?
  {
    match call
    case OnRevise(actor, expected, hash, m, vetoed) => RevisePlan(db, actor, expected, hash, m, vetoed)
    case OnApply(requested, expected) => ApplyPlan(db, requested, expected)
    case OnAccept(actor, k, now, vetoed) => AcceptMilestone(db, actor, k, now, vetoed)
    case OnTransition(k, to, factsFail, vetoed) => TransitionPhase(db, k, to, factsFail, vetoed)
    case OnWork(record) => LogWork(db, record)
    case OnExpense(expense, baseline) => RecordExpense(db, expense, baseline)
  }

  ghost function PlanStep(db: PlanDb, call: PlanCall): PlanDb
    requires Operable(db)
  {
    if call.OnReview? then db.(review := Step(db.review, call.call)) else PlanAnswer(db, call).0
  }

  lemma RevisePlanKeeps(db: PlanDb, actor: Id, expected: nat, hash: string, m: Manifest, vetoed: bool)
    requires PlanInvariant(db)
    ensures PlanInvariant(RevisePlan(db, actor, expected, hash, m, vetoed).0)
  {
    var (after, reply) := RevisePlan(db, actor, expected, hash, m, vetoed);
    if after != db { StoreManifestKeeps(db, Revision(hash, actor), m); }
  }

  lemma TransitionKeeps(db: PlanDb, k: Key, to: PhaseStatus, factsFail: bool, vetoed: bool)
    requires PlanInvariant(db)
    ensures PlanInvariant(TransitionPhase(db, k, to, factsFail, vetoed).0)
  {
    var after := TransitionPhase(db, k, to, factsFail, vetoed).0;
    if after != db { PhaseStatusKeeps(db, k, to); }
  }

  lemma LogWorkAttached(db: PlanDb, record: WorkRecord)
    requires CostsAttached(db)
    ensures var after := LogWork(db, record).0; CostsAttached(after) && after == db.(work := after.work)
  {
  }

  lemma RecordExpenseAttached(db: PlanDb, expense: Expense, baseline: Option<string>)
    requires CostsAttached(db)
    ensures var after := RecordExpense(db, expense, baseline).0; CostsAttached(after) && after == db.(expenses := after.expenses)
  {
  }

  lemma LogWorkKeeps(db: PlanDb, record: WorkRecord)
    requires PlanInvariant(db)
    ensures PlanInvariant(LogWork(db, record).0)
  {
    var after := LogWork(db, record).0;
    LogWorkAttached(db, record);
    if after != db { CostsKeep(db, after); }
  }

  lemma RecordExpenseKeeps(db: PlanDb, expense: Expense, baseline: Option<string>)
    requires PlanInvariant(db)
    ensures PlanInvariant(RecordExpense(db, expense, baseline).0)
  {
    var after := RecordExpense(db, expense, baseline).0;
    RecordExpenseAttached(db, expense, baseline);
    if after != db { CostsKeep(db, after); }
  }

  lemma PlanStepKeeps(db: PlanDb, call: PlanCall)
    requires Schema(db.review) && PlanInvariant(db)
    ensures PlanInvariant(PlanStep(db, call))
  {
    match call
    case OnReview(c) =>
      StepSchema(db.review, c);
      ReviewFrame(db, Step(db.review, c));
    case OnRevise(actor, expected, hash, m, vetoed) => RevisePlanKeeps(db, actor, expected, hash, m, vetoed);
    case OnApply(requested, expected) => ApplyPlanKeeps(db, requested, expected);
    case OnAccept(actor, k, now, vetoed) => AcceptMilestoneKeeps(db, actor, k, now, vetoed);
    case OnTransition(k, to, factsFail, vetoed) => TransitionKeeps(db, k, to, factsFail, vetoed);
    case OnWork(record) => LogWorkKeeps(db, record);
    case OnExpense(expense, baseline) => RecordExpenseKeeps(db, expense, baseline);
  }

  // ---------------------------------------------------------------- the review tables of a project

  /** A call that is always refused. */
  const Nothing: Call := CallCreate(0, 0, "", "", PlanType, "")

  /** The review call with the same effect on the review tables: a plan revision is a revision of the plan product,
      an application raises its row version, and everything else leaves them alone. */
  ghost function ReviewCall(db: PlanDb, call: PlanCall): Call
    requires Operable(db)
  {
    if call.OnReview? then call.call
    else if PlanStep(db, call).review == db.review then Nothing
    else if call.OnRevise? then
      CallRevise(call.actor, db.review.products[db.plan].project, db.plan, db.review.products[db.plan].rowVersion, call.hash, false)
    else CallApplyPlan(db.plan)
  }

  lemma ReviewCallActs(db: PlanDb, call: PlanCall)
    requires Operable(db)
    ensures PlanStep(db, call).review == Step(db.review, ReviewCall(db, call)) && PlanStep(db, call).plan == db.plan
    ensures !call.OnReview? ==> !ReviewCall(db, call).CallReviseSpecification?
  {
    match call
    case OnReview(_) =>
    case OnRevise(actor, _, hash, _, _) => RevisionActs(db.review, db.plan, actor, hash);
    case OnApply(requested, expected) => ApplicationReview(db, requested, expected);
    case _ => OthersLeaveReview(db, call);
  }

  lemma RevisionActs(review: Db, plan: Id, actor: Id, hash: string)
    requires ProductsRefer(review) && plan in review.products
    ensures Revise(review, actor, review.products[plan].project, plan, review.products[plan].rowVersion, hash, false).0
            == AddRevision(review, plan, Revision(hash, actor))
  {
  }

  lemma OthersLeaveReview(db: PlanDb, call: PlanCall)
    requires db.plan in db.review.products && (call.OnAccept? || call.OnTransition? || call.OnWork? || call.OnExpense?)
    ensures PlanAnswer(db, call).0.review == db.review && PlanAnswer(db, call).0.plan == db.plan
  {
  }

  lemma PlanStepSchema(db: PlanDb, call: PlanCall)
    requires Operable(db)
    ensures Operable(PlanStep(db, call)) && Grows(db.review, PlanStep(db, call).review)
  {
    ReviewCallActs(db, call);
    StepSchema(db.review, ReviewCall(db, call));
  }

  // ---------------------------------------------------------------- runs

  ghost function PlanNext(db: PlanDb, call: PlanCall): (after: PlanDb)
    requires Operable(db)
    ensures Operable(after)
  {
    PlanStepSchema(db, call);
    PlanStep(db, call)
  }

  ghost function PlanRun(db: PlanDb, calls: seq<PlanCall>): (after: PlanDb)
    requires Operable(db)
    ensures Operable(after)
    decreases |calls|
  {
    if calls == [] then db else PlanRun(PlanNext(db, calls[0]), calls[1..])
  }

  lemma {:induction false} PlanRunKeeps(db: PlanDb, calls: seq<PlanCall>)
    requires Operable(db) && PlanInvariant(db)
    ensures PlanInvariant(PlanRun(db, calls))
    decreases |calls|
  {
    if calls != [] {
      PlanStepKeeps(db, calls[0]);
      PlanRunKeeps(PlanNext(db, calls[0]), calls[1..]);
    }
  }

  lemma {:induction false} PlanRunAppend(db: PlanDb, calls: seq<PlanCall>, call: PlanCall)
    requires Operable(db)
    ensures PlanRun(db, calls + [call]) == PlanNext(PlanRun(db, calls), call)
    decreases |calls|
  {
    if calls != [] {
      assert (calls + [call])[0] == calls[0] && (calls + [call])[1..] == calls[1..] + [call];
      PlanRunAppend(PlanNext(db, calls[0]), calls[1..], call);
    }
  }

  // ---------------------------------------------------------------- a run of the project as a run of reviews

  ghost function ReviewCalls(db: PlanDb, calls: seq<PlanCall>): seq<Call>
    requires Operable(db)
    decreases |calls|
  {
    if calls == [] then [] else [ReviewCall(db, calls[0])] + ReviewCalls(PlanNext(db, calls[0]), calls[1..])
  }

  /** What holds of all runs of reviews holds of the review tables of a project. */
  lemma {:induction false} ReviewCallsRun(db: PlanDb, calls: seq<PlanCall>)
    requires Operable(db)
    ensures PlanRun(db, calls).review == Run(db.review, ReviewCalls(db, calls))
    ensures |ReviewCalls(db, calls)| == |calls|
    decreases |calls|
  {
    if calls != [] {
      var first, rest := ReviewCall(db, calls[0]), ReviewCalls(PlanNext(db, calls[0]), calls[1..]);
      ReviewCallActs(db, calls[0]);
      ReviewCallsRun(PlanNext(db, calls[0]), calls[1..]);
      assert ([first] + rest)[1..] == rest;
    }
  }

  lemma PlanRunProtocol(db: PlanDb, calls: seq<PlanCall>)
    requires ReviewInvariant(db.review) && db.plan in db.review.products
    ensures ReviewInvariant(PlanRun(db, calls).review)
  {
    ReviewCallsRun(db, calls);
    RunKeeps(db.review, ReviewCalls(db, calls));
  }
}
