/**
 One project under its plan: the plan binding, the projected phases and milestones,
 the gate decisions with their evidence, and the recorded costs. Approved plan revisions are put
 into effect, milestones collect evidence, and phases are opened and completed through a gate.

 As in `Review`, an operation is a function from the tables to the tables and a reply.
 `project` is the project of every statement; rows of other projects are not touched by any of them.
 */
module Plan {
  import opened Wrappers
  import opened Review
  import opened PhaseGraph
  import opened PlanManifest

  datatype PhaseStatus = NotStarted | Active | Completed

  datatype Phase = Phase(status: PhaseStatus, dependsOn: seq<Key>, generation: nat)

  datatype MilestoneStatus = Pending | Passed | Failed | Waived

  datatype Milestone = Milestone(phaseKey: Key, status: MilestoneStatus, deliverableKeys: seq<Key>, ruleKeys: seq<Key>, generation: nat)

  datatype Evidence = Evidence(revision: RevisionId, hash: string)

  /** A gate decision with its evidence rows, at most one per product. */
  datatype GateDecision = GateDecision(milestone: Key, plan: RevisionId, generation: nat, decidedBy: Id, decidedAt: int,
                                       evidence: map<Id, Evidence>)

  datatype Application = Application(plan: RevisionId, generation: nat)

  /** Hours are counted in hundredths, a day's work at most 24 hours; amounts are in cents. */
  datatype WorkRecord = WorkRecord(phase: Key, user: Id, role: string, date: int, hundredths: nat, category: string, comment: string)

  datatype Expense = Expense(phase: Key, amount: nat, currency: string, date: int, category: string, expenseType: string)

  const WorkCategories: set<string> := {"design", "development", "review", "testing", "management"}
  const CostCategories: set<string> := {"labor", "hardware_prototypes", "tooling_nre", "software_licenses", "testing_services", "contingency"}
  const ExpenseTypes: set<string> := {"capex", "opex"}

  /** Three capital letters. */
  predicate CurrencyCode(s: string) {
    |s| == 3 && forall i | 0 <= i < 3 :: 'A' <= s[i] <= 'Z'
  }

  datatype PlanDb = PlanDb(review: Db, project: Id, plan: Id, manifests: map<RevisionId, Manifest>,
                           effective: Option<RevisionId>, generation: nat, applications: seq<Application>,
                           phases: map<Key, Phase>, milestones: map<Key, Milestone>, gates: seq<GateDecision>,
                           work: seq<WorkRecord>, expenses: seq<Expense>)

  datatype PlanError =
    | PlanVersionConflict | PlanRevisionNotFound | InvalidManifest | PlanNotApproved | PhaseHasActivity | MilestoneHasDecisions
    | PlanRuleVeto | MilestoneNotFound | SelfGateDecision | MilestoneNotReady | UnsupportedAcceptanceRule | DuplicateEvidence
    | PhaseNotFound | TransitionInvalid | GateRejected | DependencyNotMet | PhaseNotOpen | CurrencyMismatch | RecordInvalid

  datatype PlanReply =
    | PlanRevised(revision: RevisionId)
    | PlanApplied(revision: RevisionId, generation: nat)
    | MilestoneAccepted(gate: nat)
    | PhaseMoved(from: PhaseStatus, to: PhaseStatus)
    | CostRecorded
    | PlanRefused(error: PlanError)

  // ---------------------------------------------------------------- revising the plan

  predicate DeliverableExists(db: PlanDb, d: Deliverable) {
    d.productText == "" || (d.product.Some? && InProject(db.review, d.product.value, db.project))
  }

  ghost function RevisePlan(db: PlanDb, actor: Id, expected: nat, hash: string, m: Manifest, vetoed: bool): (PlanDb, PlanReply)
    requires db.plan in db.review.products
  {
    if !ValidManifest(m) then (db, PlanRefused(InvalidManifest))
    else if db.review.products[db.plan].rowVersion != expected then (db, PlanRefused(PlanVersionConflict))
    else if vetoed then (db, PlanRefused(PlanRuleVeto))
    else if exists i | 0 <= i < |m.deliverables| :: !DeliverableExists(db, m.deliverables[i]) then (db, PlanRefused(InvalidManifest))
    else (StoreManifest(db, Revision(hash, actor), m), PlanRevised(RevisionId(db.plan, |History(db.review, db.plan)| + 1)))
  }

  function StoreManifest(db: PlanDb, revision: Revision, m: Manifest): PlanDb
    requires db.plan in db.review.products
  {
    db.(review := AddRevision(db.review, db.plan, revision),
        manifests := db.manifests[RevisionId(db.plan, |History(db.review, db.plan)| + 1) := m])
  }

  // ---------------------------------------------------------------- putting a plan into effect

  /** The plan revision has a positive approval through the review protocol. */
  predicate RevisionApproved(db: Db, r: RevisionId) {
    exists i | 0 <= i < |db.decisions| ::
      db.decisions[i].request in db.requests && db.requests[db.decisions[i].request].revision == r
      && db.decisions[i].kind == Approval && db.decisions[i].outcome == Positive
  }

  /** The greatest revision, up to number n, that has a manifest. */
  function LatestManifest(db: PlanDb, n: nat): Option<RevisionId> {
    if n == 0 then None
    else if RevisionId(db.plan, n) in db.manifests then Some(RevisionId(db.plan, n))
    else LatestManifest(db, n - 1)
  }

  /** The revision named by the caller, or the latest one. */
  function Target(db: PlanDb, requested: Option<RevisionId>): Option<RevisionId> {
    if requested.Some?
    then if requested.value.product == db.plan && requested.value in db.manifests then requested else None
    else LatestManifest(db, |History(db.review, db.plan)|)
  }

  /** A phase row as upserted: the status of an existing row survives. */
  function PhaseRow(phases: map<Key, Phase>, p: PlanPhase, generation: nat): Phase {
    Phase(if p.key in phases then phases[p.key].status else NotStarted, p.dependsOn, generation)
  }

  function UpsertPhases(phases: map<Key, Phase>, ps: seq<PlanPhase>, generation: nat): map<Key, Phase> {
    if ps == [] then phases
    else
      var before := UpsertPhases(phases, ps[..|ps| - 1], generation);
      before[ps[|ps| - 1].key := PhaseRow(before, ps[|ps| - 1], generation)]
  }

  /** A milestone row as upserted: it returns to pending. */
  function MilestoneRow(s: PlanMilestone, generation: nat): Milestone {
    Milestone(s.phaseKey, Pending, s.deliverableKeys, s.ruleKeys, generation)
  }

  function UpsertMilestones(milestones: map<Key, Milestone>, ss: seq<PlanMilestone>, generation: nat): map<Key, Milestone> {
    if ss == [] then milestones
    else UpsertMilestones(milestones, ss[..|ss| - 1], generation)[ss[|ss| - 1].key := MilestoneRow(ss[|ss| - 1], generation)]
  }

  function Keep<T>(rows: map<Key, T>, keys: seq<Key>): map<Key, T> {
    map k | k in rows && k in keys :: rows[k]
  }

  predicate HasCost(work: seq<WorkRecord>, expenses: seq<Expense>, k: Key) {
    || (exists i | 0 <= i < |work| :: work[i].phase == k)
    || (exists i | 0 <= i < |expenses| :: expenses[i].phase == k)
  }

  predicate HasGate(gates: seq<GateDecision>, k: Key) {
    exists i | 0 <= i < |gates| :: gates[i].milestone == k
  }

  /** A phase with recorded cost is missing from the manifest. */
  predicate DropsCostedPhase(phases: map<Key, Phase>, work: seq<WorkRecord>, expenses: seq<Expense>, m: Manifest) {
    exists k | k in phases :: k !in PhaseKeys(m) && HasCost(work, expenses, k)
  }

  /** A milestone with gate decisions is missing from the manifest. */
  predicate DropsDecidedMilestone(milestones: map<Key, Milestone>, gates: seq<GateDecision>, m: Manifest) {
    exists k | k in milestones :: k !in MilestoneKeys(m) && HasGate(gates, k)
  }

  /** Binds the target and projects its phases and milestones. */
  function Bind(db: PlanDb, target: RevisionId, m: Manifest): PlanDb {
    var generation := db.generation + 1;
    db.(effective := Some(target),
        generation := generation,
        applications := db.applications + [Application(target, generation)],
        phases := Keep(UpsertPhases(db.phases, m.phases, generation), PhaseKeys(m)),
        milestones := Keep(UpsertMilestones(db.milestones, m.milestones, generation), MilestoneKeys(m)))
  }

  function Project(db: PlanDb, target: RevisionId, m: Manifest): PlanDb
    requires db.plan in db.review.products
  {
    Bind(db, target, m).(review := Bump(db.review, db.plan))
  }

  /** Why the plan may not be applied, before its effect on recorded rows is known. */
  ghost function ApplicationRefusal(db: PlanDb, requested: Option<RevisionId>, expected: nat): (r: Option<PlanError>)
    requires db.plan in db.review.products
    ensures r.None? ==> Target(db, requested).Some? && Target(db, requested).value in db.manifests
  {
    var target := Target(db, requested);
    if db.review.products[db.plan].rowVersion != expected then Some(PlanVersionConflict)
    else if target.None? || target.value !in db.manifests then Some(PlanRevisionNotFound)
    else if !ValidManifest(db.manifests[target.value]) then Some(InvalidManifest)
    else if !RevisionApproved(db.review, target.value) then Some(PlanNotApproved)
    else None
  }

  /** Applying the revision in effect changes nothing; another is projected unless that would drop rows still referred to. */
  function Enact(db: PlanDb, target: RevisionId): (PlanDb, PlanReply)
    requires db.plan in db.review.products && target in db.manifests
  {
    var m := db.manifests[target];
    if db.effective == Some(target) then (db, PlanApplied(target, db.generation))
    else if DropsCostedPhase(db.phases, db.work, db.expenses, m) then (db, PlanRefused(PhaseHasActivity))
    else if DropsDecidedMilestone(db.milestones, db.gates, m) then (db, PlanRefused(MilestoneHasDecisions))
    else (Project(db, target, m), PlanApplied(target, db.generation + 1))
  }

  ghost function ApplyPlan(db: PlanDb, requested: Option<RevisionId>, expected: nat): (PlanDb, PlanReply)
    requires db.plan in db.review.products
  {
    var refusal := ApplicationRefusal(db, requested, expected);
    if refusal.Some? then (db, PlanRefused(refusal.value)) else Enact(db, Target(db, requested).value)
  }

  // ---------------------------------------------------------------- accepting a milestone

  predicate Decides(g: GateDecision, k: Key, generation: nat) {
    g.milestone == k && g.generation == generation
  }

  /** The last decision on milestone k in this generation: by decision time, then by insertion. */
  function LatestGate(gates: seq<GateDecision>, k: Key, generation: nat): (r: Option<nat>)
    ensures r.Some? ==> r.value < |gates| && Decides(gates[r.value], k, generation)
    ensures r.Some? ==> forall i | 0 <= i < |gates| && Decides(gates[i], k, generation) ::
                          gates[i].decidedAt < gates[r.value].decidedAt
                          || (gates[i].decidedAt == gates[r.value].decidedAt && i <= r.value)
    ensures r.None? ==> forall i | 0 <= i < |gates| :: !Decides(gates[i], k, generation)
  {
    if gates == [] then None
    else
      var last := |gates| - 1;
      var before := LatestGate(gates[..last], k, generation);
      if Decides(gates[last], k, generation) && (before.None? || gates[before.value].decidedAt <= gates[last].decidedAt)
      then Some(last) else before
  }

  /** The product named by the evidence is still approved and the named revision still its latest. */
  predicate EvidenceCurrent(db: PlanDb, p: Id, e: Evidence) {
    p in db.review.products && db.review.products[p].status == Approved && e.revision == Latest(db.review, p)
  }

  predicate AllCurrent(db: PlanDb, evidence: map<Id, Evidence>) {
    forall p | p in evidence :: EvidenceCurrent(db, p, evidence[p])
  }

  function FindDeliverable(ds: seq<Deliverable>, k: Key): (r: Option<Deliverable>)
    ensures r.Some? ==> r.value in ds && r.value.key == k
    ensures r.None? ==> forall i | 0 <= i < |ds| :: ds[i].key != k
  {
    if ds == [] then None else if ds[0].key == k then Some(ds[0]) else FindDeliverable(ds[1..], k)
  }

  function FindMilestone(ss: seq<PlanMilestone>, k: Key): (r: Option<PlanMilestone>)
    ensures r.Some? ==> r.value in ss && r.value.key == k
    ensures r.None? ==> forall i | 0 <= i < |ss| :: ss[i].key != k
  {
    if ss == [] then None else if ss[0].key == k then Some(ss[0]) else FindMilestone(ss[1..], k)
  }

  /** The product that a deliverable key of the manifest stands for. */
  function ProductFor(m: Manifest, k: Key): Option<Id> {
    var d := FindDeliverable(m.deliverables, k);
    if d.None? || d.value.productText == "" then None else d.value.product
  }

  /** Why the actor may not use the deliverable k as evidence. */
  function EvidenceProblem(db: PlanDb, m: Manifest, actor: Id, k: Key): Option<PlanError> {
    var p := ProductFor(m, k);
    if p.None? || !InProject(db.review, p.value, db.project) || !KnownRevision(db.review, Latest(db.review, p.value))
    then Some(MilestoneNotReady)
    else if actor == AuthorOf(db.review, Latest(db.review, p.value)) then Some(SelfGateDecision)
    else if FindDeliverable(m.deliverables, k).value.requiredStatus != Some(Approved)
         || db.review.products[p.value].status != Approved then Some(MilestoneNotReady)
    else None
  }

  function EvidenceOf(db: Db, p: Id): Evidence
    requires KnownRevision(db, Latest(db, p))
  {
    Evidence(Latest(db, p), RevisionOf(db, Latest(db, p)).hash)
  }

  datatype Collected = Complete(evidence: map<Id, Evidence>) | Problem(error: PlanError)

  /** One evidence row per deliverable key, in order; the first problem ends the collection. */
  function Collect(db: PlanDb, m: Manifest, actor: Id, keys: seq<Key>): Collected {
    if keys == [] then Complete(map[])
    else
      var before := Collect(db, m, actor, keys[..|keys| - 1]);
      var k := keys[|keys| - 1];
      if before.Problem? then before
      else if EvidenceProblem(db, m, actor, k).Some? then Problem(EvidenceProblem(db, m, actor, k).value)
      else if ProductFor(m, k).value in before.evidence then Problem(DuplicateEvidence)
      else Complete(before.evidence[ProductFor(m, k).value := EvidenceOf(db.review, ProductFor(m, k).value)])
  }

  /** The manifest still lists the milestone exactly as it was projected. */
  predicate SameMilestone(m: Manifest, k: Key, row: Milestone) {
    var s := FindMilestone(m.milestones, k);
    s.Some? && s.value.phaseKey == row.phaseKey && s.value.deliverableKeys == row.deliverableKeys && s.value.ruleKeys == row.ruleKeys
  }

  function Pass(db: PlanDb, k: Key, gate: GateDecision): PlanDb
    requires k in db.milestones
  {
    db.(gates := db.gates + [gate], milestones := db.milestones[k := db.milestones[k].(status := Passed)])
  }

  /** A passed milestone with current evidence is answered with its decision. */
  predicate StillPassed(db: PlanDb, k: Key)
    requires k in db.milestones
  {
    var g := LatestGate(db.gates, k, db.milestones[k].generation);
    && db.milestones[k].status == Passed && g.Some?
    && AllCurrent(db, db.gates[g.value].evidence)
    && |db.gates[g.value].evidence| == |db.milestones[k].deliverableKeys|
  }

  function AcceptMilestone(db: PlanDb, actor: Id, k: Key, now: int, vetoed: bool): (PlanDb, PlanReply) {
    if k !in db.milestones then (db, PlanRefused(MilestoneNotFound))
    else if db.effective.None? || db.effective.value !in db.manifests || !KnownRevision(db.review, db.effective.value)
         || db.milestones[k].generation != db.generation then (db, PlanRefused(PlanNotApproved))
    else if actor == AuthorOf(db.review, db.effective.value) then (db, PlanRefused(SelfGateDecision))
    else if StillPassed(db, k) then (db, MilestoneAccepted(LatestGate(db.gates, k, db.milestones[k].generation).value))
    else if db.milestones[k].status == Passed && LatestGate(db.gates, k, db.milestones[k].generation).None?
    then (db, PlanRefused(MilestoneNotReady))
    else if db.milestones[k].status != Pending && db.milestones[k].status != Passed then (db, PlanRefused(MilestoneNotReady))
    else if db.milestones[k].ruleKeys != [] then (db, PlanRefused(UnsupportedAcceptanceRule))
    else if !SameMilestone(db.manifests[db.effective.value], k, db.milestones[k]) then (db, PlanRefused(MilestoneNotReady))
    else if vetoed then (db, PlanRefused(PlanRuleVeto))
    else
      var collected := Collect(db, db.manifests[db.effective.value], actor, db.milestones[k].deliverableKeys);
      if collected.Problem? then (db, PlanRefused(collected.error))
      else (Pass(db, k, GateDecision(k, db.effective.value, db.generation, actor, now, collected.evidence)),
            MilestoneAccepted(|db.gates|))
  }

  // ---------------------------------------------------------------- moving a phase

  predicate TransitionAllowed(from: PhaseStatus, to: PhaseStatus) {
    (from == NotStarted && to == Active) || (from == Active && to == Completed)
  }

  /** The milestone has a decision of the effective plan whose evidence is complete and current. */
  predicate GatePassed(db: PlanDb, k: Key)
    requires k in db.milestones
  {
    var row := db.milestones[k];
    var g := LatestGate(db.gates, k, row.generation);
    && row.status == Passed && g.Some?
    && db.effective == Some(db.gates[g.value].plan)
    && db.generation == db.gates[g.value].generation
    && |db.gates[g.value].evidence| == |row.deliverableKeys|
    && forall p | p in db.gates[g.value].evidence && p in db.review.products ::
         EvidenceCurrent(db, p, db.gates[g.value].evidence[p])
  }

  predicate MilestonesPending(db: PlanDb, phaseKey: Key) {
    exists k | k in db.milestones :: db.milestones[k].phaseKey == phaseKey && !GatePassed(db, k)
  }

  /** A dependency that exists and is not completed. */
  predicate Unmet(db: PlanDb, phaseKey: Key)
    requires phaseKey in db.phases
  {
    exists d | d in db.phases[phaseKey].dependsOn :: d in db.phases && db.phases[d].status != Completed
  }

  /** `factsFail` and `vetoed` are the outcomes of the economic facts and of the gate rules. */
  function TransitionPhase(db: PlanDb, k: Key, to: PhaseStatus, factsFail: bool, vetoed: bool): (PlanDb, PlanReply) {
    if k !in db.phases then (db, PlanRefused(PhaseNotFound))
    else if !TransitionAllowed(db.phases[k].status, to) then (db, PlanRefused(TransitionInvalid))
    else if to == Completed && MilestonesPending(db, k) then (db, PlanRefused(GateRejected))
    else if to == Active && Unmet(db, k) then (db, PlanRefused(DependencyNotMet))
    else if factsFail || vetoed then (db, PlanRefused(GateRejected))
    else (db.(phases := db.phases[k := db.phases[k].(status := to)]), PhaseMoved(db.phases[k].status, to))
  }

  // ---------------------------------------------------------------- recording costs

  /** At most 24 hours of work, of a known kind. */
  predicate ValidWork(record: WorkRecord) {
    0 < record.hundredths <= 2400 && record.category in WorkCategories
  }

  predicate ValidExpense(expense: Expense) {
    expense.amount > 0 && CurrencyCode(expense.currency) && expense.expenseType in ExpenseTypes && expense.category in CostCategories
  }

  function LogWork(db: PlanDb, record: WorkRecord): (PlanDb, PlanReply) {
    if record.phase !in db.phases then (db, PlanRefused(PhaseNotFound))
    else if db.phases[record.phase].status != Active then (db, PlanRefused(PhaseNotOpen))
    else if !ValidWork(record) then (db, PlanRefused(RecordInvalid))
    else (db.(work := db.work + [record]), CostRecorded)
  }

  /** `baseline` is the currency of the approved cost baseline, if there is one. */
  function RecordExpense(db: PlanDb, expense: Expense, baseline: Option<string>): (PlanDb, PlanReply) {
    if expense.phase !in db.phases then (db, PlanRefused(PhaseNotFound))
    else if db.phases[expense.phase].status != Active then (db, PlanRefused(PhaseNotOpen))
    else if baseline.Some? && baseline.value != expense.currency then (db, PlanRefused(CurrencyMismatch))
    else if !ValidExpense(expense) then (db, PlanRefused(RecordInvalid))
    else (db.(expenses := db.expenses + [expense]), CostRecorded)
  }
}
