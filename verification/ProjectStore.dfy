/**
 The store: one field per table, and one method per operation, which checks and updates the tables step by step
 as its transaction does. Each method is proved against the function of the same operation
 in `Review` or `Plan`, whose properties are proved over all runs; a failure after the first write rolls the writes back.
 */
module ProjectStore {
  import opened Wrappers
  import opened Review
  import opened PhaseGraph
  import opened PlanManifest
  import opened Plan
  import opened PlanRuns

  /** Of several open requests for one product the schema allows only one. */
  lemma OnlyOpen(db: Db, p: Id, q: Id)
    requires SingleOpen(db) && IsOpen(db, q, p)
    ensures HasOpen(db, p) && TheOpen(db, p) == q
  {
  }

  lemma PrefixStep<T>(s: seq<T>, i: nat)
    requires i < |s|
    ensures s[..i + 1][..i] == s[..i] && s[..i + 1] == s[..i] + [s[i]]
  {
  }

  class Store {
    const project: Id
    const plan: Id

    var products: map<Id, WorkProduct>
    var revisions: map<Id, seq<Revision>>
    var requests: map<Id, Request>
    var assignees: set<Assigned>
    var decisions: seq<Decision>
    var nextId: Id

    var manifests: map<RevisionId, Manifest>
    var effective: Option<RevisionId>
    var generation: nat
    var applications: seq<Application>
    var phases: map<Key, Phase>
    var milestones: map<Key, Milestone>
    var gates: seq<GateDecision>
    var work: seq<WorkRecord>
    var expenses: seq<Expense>

    function Tables(): Db
      reads this
    {
      Db(products, revisions, requests, assignees, decisions, nextId)
    }

    function Rows(): PlanDb
      reads this
    {
      PlanDb(Tables(), project, plan, manifests, effective, generation, applications, phases, milestones, gates, work, expenses)
    }

    /** Creates the project and its plan beside whatever products there are already. */
    constructor (review: Db, actor: Id, project: Id, hash: string)
      ensures Rows() == NewProject(review, actor, project, hash)
    {
      this.project, plan := project, review.nextId;
      products := review.products[review.nextId := WorkProduct(project, "PLAN-001", PlanType, Draft, 1)];
      revisions := review.revisions[review.nextId := [Revision(hash, actor)]];
      requests, assignees, decisions := review.requests, review.assignees, review.decisions;
      manifests := map[RevisionId(review.nextId, 1) := DefaultManifest];
      nextId := review.nextId + 1;
      effective, generation, applications := None, 0, [];
      phases, milestones, gates, work, expenses := map[], map[], [], [], [];
    }

    // -------------------------------------------------------------- work products

    method CreateWorkProduct(actor: Id, project: Id, code: string, title: string, productType: ProductType, hash: string)
        returns (reply: Reply)
      modifies this`products, this`revisions, this`nextId
      ensures (Tables(), reply) == Create(old(Tables()), actor, project, code, title, productType, hash)
    {
      if productType == PlanType { return Refused(PlanReserved); }
      if productType == UnknownType { return Refused(InvalidType); }
      if code == "" || title == "" { return Refused(InvalidCode); }
      if CodeInUse(Tables(), project, code) { return Refused(CodeTaken); }
      var p := nextId;
      nextId := nextId + 1;
      products := products[p := WorkProduct(project, code, productType, Draft, 1)];
      revisions := revisions[p := [Revision(hash, actor)]];
      return Created(p);
    }

    method SupersedeOpenReviewRequest(p: Id)
      modifies this`requests
      ensures Tables() == SupersedeOpen(old(Tables()), p)
    {
      requests := map q | q in requests :: Supersede(requests[q], p);
    }

    method UpdateProduct(p: Id, status: Status)
      requires p in products
      modifies this`products
      ensures Tables() == SetProduct(old(Tables()), p, status)
    {
      var row := products[p];
      products := products[p := row.(status := status, rowVersion := row.rowVersion + 1)];
    }

    method ReviseWorkProduct(actor: Id, project: Id, p: Id, expected: nat, hash: string, vetoed: bool) returns (reply: Reply)
      modifies this`products, this`revisions, this`requests
      ensures (Tables(), reply) == Revise(old(Tables()), actor, project, p, expected, hash, vetoed)
    {
      if !InProject(Tables(), p, project) { return Refused(ProductNotFound); }
      if vetoed { return Refused(RuleVeto); }
      if products[p].rowVersion != expected { return Refused(VersionConflict); }
      var history := History(Tables(), p);
      if history == [] { return Refused(NoRevision); }
      AppendRevision(p, Revision(hash, actor));
      return Revised(RevisionId(p, |history| + 1));
    }

    /** A new revision returns the product to draft and supersedes its open request. */
    method AppendRevision(p: Id, revision: Revision)
      requires p in products
      modifies this`products, this`revisions, this`requests
      ensures Tables() == AddRevision(old(Tables()), p, revision)
    {
      revisions := revisions[p := History(Tables(), p) + [revision]];
      UpdateProduct(p, Draft);
      SupersedeOpenReviewRequest(p);
    }

    method ReviseSpecification(actor: Id, project: Id, p: Id, expected: nat, hash: string, contentValid: bool) returns (reply: Reply)
      modifies this`products, this`revisions
      ensures (Tables(), reply) == Review.ReviseSpecification(old(Tables()), actor, project, p, expected, hash, contentValid)
    {
      if !contentValid { return Refused(SpecificationInvalid); }
      if !InProject(Tables(), p, project) || products[p].productType != SpecificationType { return Refused(ProductNotFound); }
      if products[p].status == Obsolete { return Refused(ProductObsolete); }
      if products[p].rowVersion != expected { return Refused(VersionConflict); }
      var history := History(Tables(), p);
      if history == [] { return Refused(NoRevision); }
      revisions := revisions[p := history + [Revision(hash, actor)]];
      UpdateProduct(p, products[p].status);
      return Revised(RevisionId(p, |history| + 1));
    }

    method RetireWorkProduct(project: Id, p: Id, expected: nat, vetoed: bool) returns (reply: Reply)
      modifies this`products, this`requests
      ensures (Tables(), reply) == Retire(old(Tables()), project, p, expected, vetoed)
    {
      if !InProject(Tables(), p, project) { return Refused(ProductNotFound); }
      if products[p].productType == PlanType { return Refused(PlanReserved); }
      if products[p].status == Obsolete { return Retired; }
      if products[p].rowVersion != expected { return Refused(VersionConflict); }
      if vetoed { return Refused(RuleVeto); }
      UpdateProduct(p, Obsolete);
      SupersedeOpenReviewRequest(p);
      return Retired;
    }

    // -------------------------------------------------------------- submission

    /** Looks for the first assignment that may not be made, and for both roles. */
    method CheckAssignments(assignments: seq<Assignment>, author: Id, eligible: set<Assignment>) returns (offence: Option<Error>)
      ensures offence == (var first := FirstOffence(assignments, |assignments|, author, eligible);
                          if first.Some? then first
                          else if !HasRole(assignments, Reviewer) || !HasRole(assignments, Approver) then Some(AssignmentsInvalid)
                          else None)
    {
      var seen: set<Assignment> := {};
      var roles: set<Role> := {};
      for i := 0 to |assignments|
        invariant seen == set a | a in assignments[..i]
        invariant forall r :: r in roles <==> exists j | 0 <= j < i :: assignments[j].role == r
        invariant FirstOffence(assignments, i, author, eligible).None?
      {
        var a := assignments[i];
        assert a in seen <==> a in assignments[..i];
        if a.user == author {
          OffenceStays(assignments, i, author, eligible);
          return Some(AssigneeIsAuthor);
        }
        if a.role.OtherRole? || a in seen || a !in eligible {
          OffenceStays(assignments, i, author, eligible);
          return Some(AssignmentsInvalid);
        }
        PrefixStep(assignments, i);
        seen := seen + {a};
        roles := roles + {a.role};
      }
      if Reviewer !in roles || Approver !in roles { return Some(AssignmentsInvalid); }
      return None;
    }

    static lemma {:induction false} OffenceStays(assignments: seq<Assignment>, i: nat, author: Id, eligible: set<Assignment>)
      requires i < |assignments| && FirstOffence(assignments, i, author, eligible).None?
      requires Offence(assignments, i, author, eligible).Some?
      ensures forall n | i < n <= |assignments| ::
                FirstOffence(assignments, n, author, eligible) == Offence(assignments, i, author, eligible)
    {
      var n := i + 1;
      while n <= |assignments|
        invariant i < n <= |assignments| + 1
        invariant forall l | i < l < n :: FirstOffence(assignments, l, author, eligible) == Offence(assignments, i, author, eligible)
      {
        n := n + 1;
      }
    }

    method SubmitWorkProduct(project: Id, p: Id, assignments: seq<Assignment>, eligible: set<Assignment>, vetoed: bool)
        returns (reply: Reply)
      modifies this`products, this`requests, this`assignees, this`nextId
      ensures (Tables(), reply) == Submit(old(Tables()), project, p, assignments, eligible, vetoed)
    {
      if assignments == [] { return Refused(AssignmentsInvalid); }
      if !InProject(Tables(), p, project) { return Refused(ProductNotFound); }
      if products[p].status != Draft { return Refused(NotDraft); }
      if History(Tables(), p) == [] { return Refused(NoRevision); }
      var latest := Latest(Tables(), p);
      var offence := CheckAssignments(assignments, AuthorOf(Tables(), latest), eligible);
      if offence.Some? { return Refused(offence.value); }
      if vetoed { return Refused(RuleVeto); }
      if HasOpen(Tables(), p) { return Refused(RequestAlreadyOpen); }
      var q := nextId;
      nextId := nextId + 1;
      requests := requests[q := Request(project, p, latest, RevisionOf(Tables(), latest).hash, Open)];
      for i := 0 to |assignments|
        invariant assignees == old(assignees) + set a | a in assignments[..i] :: Assigned(q, a.user, a.role)
        invariant nextId == old(nextId) + 1 && products == old(products)
        invariant requests == OpenRequest(old(Tables()), project, p).requests
      {
        PrefixStep(assignments, i);
        assignees := assignees + {Assigned(q, assignments[i].user, assignments[i].role)};
      }
      assert assignments[..|assignments|] == assignments;
      UpdateProduct(p, InReview);
      return Submitted(q);
    }

    // -------------------------------------------------------------- decisions

    method ApplyDecisionEffect(kind: Kind, q: Id, p: Id) returns (status: Status)
      requires q in requests && p in products
      modifies this`products, this`requests
      ensures Tables() == Effect(old(Tables()), q, p, kind)
      ensures status == products[p].status
    {
      match kind {
        case ReviewKind =>
        case Approval =>
          requests := requests[q := requests[q].(status := RequestApproved)];
          UpdateProduct(p, Approved);
        case RequestChanges =>
          requests := requests[q := requests[q].(status := ChangesRequested)];
          UpdateProduct(p, Draft);
      }
      status := products[p].status;
    }

    /** Assignment, independence, the pinned hash, the quorum, the rules and the signature, in this order. */
    method CheckDecision(q: Id, actor: Id, kind: Kind, vetoed: bool) returns (refusal: Option<Error>)
      requires q in requests && KnownRevision(Tables(), requests[q].revision)
      ensures refusal == Refusal(Tables(), q, actor, kind, vetoed)
    {
      if !AssignedFor(Tables(), q, actor, kind) { return Some(NotAssigned); }
      var revision := RevisionOf(Tables(), requests[q].revision);
      if actor == revision.author { return Some(SelfDecision); }
      if requests[q].hash != revision.hash { return Some(StaleRevision); }
      if kind == Approval && !HasPositiveReview(decisions, q) { return Some(NoPositiveReview); }
      if kind != ReviewKind && vetoed { return Some(RuleVeto); }
      if AlreadyDecided(decisions, q, actor, kind) { return Some(DuplicateDecision); }
      return None;
    }

    method RecordDecision(actor: Id, project: Id, p: Id, kind: Kind, reason: string, key: string, vetoed: bool) returns (reply: Reply)
      requires Schema(Tables())
      modifies this`products, this`requests, this`decisions, this`nextId
      ensures (Tables(), reply) == Decide(old(Tables()), actor, project, p, kind, reason, key, vetoed)
    {
      if kind == RequestChanges && reason == "" { return Refused(ReasonRequired); }
      if key != "" {
        var existing := FindKey(decisions, key);
        if existing.Some? { return Replay(Tables(), existing.value, actor, project, p, kind, reason); }
      }
      if !InProject(Tables(), p, project) { return Refused(ProductNotFound); }
      if products[p].status != InReview { return Refused(NotInReview); }
      if !HasOpen(Tables(), p) { return Refused(RequestMissing); }
      var q :| q in requests && IsOpen(Tables(), q, p);
      OnlyOpen(Tables(), p, q);
      var refusal := CheckDecision(q, actor, kind, vetoed);
      if refusal.Some? { return Refused(refusal.value); }
      var d := InsertDecision(q, actor, kind, reason, key);
      var status := ApplyDecisionEffect(kind, q, p);
      return Decided(d, status);
    }

    method InsertDecision(q: Id, actor: Id, kind: Kind, reason: string, key: string) returns (d: Decision)
      requires q in requests && KnownRevision(Tables(), requests[q].revision)
      modifies this`decisions, this`nextId
      ensures d == NewDecision(old(Tables()), q, actor, kind, reason, key) && Tables() == Record(old(Tables()), d)
    {
      var outcome := if kind == RequestChanges then ChangesWanted else Positive;
      var hash := RevisionOf(Tables(), requests[q].revision).hash;
      d := Decision(nextId, q, requests[q].revision, hash, kind, outcome, actor, NullIfBlank(reason), NullIfBlank(key));
      decisions := decisions + [d];
      nextId := nextId + 1;
    }

    // -------------------------------------------------------------- plan

    method CheckDeliverables(ds: seq<Deliverable>) returns (ok: bool)
      ensures ok <==> forall i | 0 <= i < |ds| :: DeliverableExists(Rows(), ds[i])
    {
      for i := 0 to |ds|
        invariant forall j | 0 <= j < i :: DeliverableExists(Rows(), ds[j])
      {
        if !DeliverableExists(Rows(), ds[i]) { return false; }
      }
      return true;
    }

    method RevisePlan(actor: Id, expected: nat, hash: string, m: Manifest, vetoed: bool) returns (reply: PlanReply)
      requires plan in products
      modifies this`products, this`revisions, this`requests, this`manifests
      ensures (Rows(), reply) == Plan.RevisePlan(old(Rows()), actor, expected, hash, m, vetoed)
    {
      var valid := Validate(m);
      if !valid { return PlanRefused(InvalidManifest); }
      if products[plan].rowVersion != expected { return PlanRefused(PlanVersionConflict); }
      if vetoed { return PlanRefused(PlanRuleVeto); }
      var deliverablesExist := CheckDeliverables(m.deliverables);
      if !deliverablesExist { return PlanRefused(InvalidManifest); }
      var revision := RevisionId(plan, |History(Tables(), plan)| + 1);
      AppendRevision(plan, Revision(hash, actor));
      manifests := manifests[revision := m];
      return PlanRevised(revision);
    }

    /** Inserts the phases of the manifest, or updates those that exist without touching their status. */
    method UpsertPhases(ps: seq<PlanPhase>, newGeneration: nat)
      modifies this`phases
      ensures phases == Plan.UpsertPhases(old(phases), ps, newGeneration)
    {
      for i := 0 to |ps|
        invariant phases == Plan.UpsertPhases(old(phases), ps[..i], newGeneration)
      {
        PrefixStep(ps, i);
        var status := if ps[i].key in phases then phases[ps[i].key].status else NotStarted;
        phases := phases[ps[i].key := Phase(status, ps[i].dependsOn, newGeneration)];
      }
      assert ps[..|ps|] == ps;
    }

    method UpsertMilestones(ss: seq<PlanMilestone>, newGeneration: nat)
      modifies this`milestones
      ensures milestones == Plan.UpsertMilestones(old(milestones), ss, newGeneration)
    {
      for i := 0 to |ss|
        invariant milestones == Plan.UpsertMilestones(old(milestones), ss[..i], newGeneration)
      {
        PrefixStep(ss, i);
        milestones := milestones[ss[i].key := Milestone(ss[i].phaseKey, Pending, ss[i].deliverableKeys, ss[i].ruleKeys, newGeneration)];
      }
      assert ss[..|ss|] == ss;
    }

    method CheckApplication(requested: Option<RevisionId>, expected: nat) returns (refusal: Option<PlanError>)
      requires plan in products
      ensures refusal == ApplicationRefusal(Rows(), requested, expected)
    {
      if products[plan].rowVersion != expected { return Some(PlanVersionConflict); }
      var target := Target(Rows(), requested);
      if target.None? || target.value !in manifests { return Some(PlanRevisionNotFound); }
      var valid := Validate(manifests[target.value]);
      if !valid { return Some(InvalidManifest); }
      if !RevisionApproved(Tables(), target.value) { return Some(PlanNotApproved); }
      return None;
    }

    method ApplyPlan(requested: Option<RevisionId>, expected: nat) returns (reply: PlanReply)
      requires plan in products
      modifies this`products, this`effective, this`generation, this`applications, this`phases, this`milestones
      ensures (Rows(), reply) == Plan.ApplyPlan(old(Rows()), requested, expected)
    {
      var refusal := CheckApplication(requested, expected);
      if refusal.Some? { return PlanRefused(refusal.value); }
      reply := Enact(Target(Rows(), requested).value);
    }

    method Enact(target: RevisionId) returns (reply: PlanReply)
      requires plan in products && target in manifests
      modifies this`products, this`effective, this`generation, this`applications, this`phases, this`milestones
      ensures (Rows(), reply) == Plan.Enact(old(Rows()), target)
    {
      if effective == Some(target) { return PlanApplied(target, generation); }
      var problem := PutIntoEffect(target, manifests[target]);
      if problem.Some? { return PlanRefused(problem.value); }
      assert Rows() == Bind(old(Rows()), target, manifests[target]);
      UpdateProduct(plan, products[plan].status);
      return PlanApplied(target, generation);
    }

    /** Upserts the phases and deletes those that the manifest drops, unless one of them has recorded costs. */
    method ReplacePhases(m: Manifest, newGeneration: nat) returns (blocked: bool)
      modifies this`phases
      ensures blocked == DropsCostedPhase(old(phases), work, expenses, m)
      ensures phases == if blocked then old(phases) else Keep(Plan.UpsertPhases(old(phases), m.phases, newGeneration), PhaseKeys(m))
    {
      var before := phases;
      UpsertPhases(m.phases, newGeneration);
      blocked := DropsCostedPhase(before, work, expenses, m);
      phases := if blocked then before else Keep(phases, PhaseKeys(m));
    }

    /** Upserts the milestones and deletes those that the manifest drops, unless one of them has been decided on. */
    method ReplaceMilestones(m: Manifest, newGeneration: nat) returns (blocked: bool)
      modifies this`milestones
      ensures blocked == DropsDecidedMilestone(old(milestones), gates, m)
      ensures milestones == if blocked then old(milestones)
                            else Keep(Plan.UpsertMilestones(old(milestones), m.milestones, newGeneration), MilestoneKeys(m))
    {
      var before := milestones;
      UpsertMilestones(m.milestones, newGeneration);
      blocked := DropsDecidedMilestone(before, gates, m);
      milestones := if blocked then before else Keep(milestones, MilestoneKeys(m));
    }

    /** Binds the target and projects the manifest; if a row that is dropped is still referred to, everything is rolled back. */
    method PutIntoEffect(target: RevisionId, m: Manifest) returns (problem: Option<PlanError>)
      modifies this`effective, this`generation, this`applications, this`phases, this`milestones
      ensures problem == if DropsCostedPhase(old(phases), work, expenses, m) then Some(PhaseHasActivity)
                         else if DropsDecidedMilestone(old(milestones), gates, m) then Some(MilestoneHasDecisions) else None
      ensures problem.Some? ==> effective == old(effective) && generation == old(generation) && applications == old(applications)
                                && phases == old(phases) && milestones == old(milestones)
      ensures problem.None? ==>
                && effective == Some(target) && generation == old(generation) + 1
                && applications == old(applications) + [Application(target, generation)]
                && phases == Keep(Plan.UpsertPhases(old(phases), m.phases, generation), PhaseKeys(m))
                && milestones == Keep(Plan.UpsertMilestones(old(milestones), m.milestones, generation), MilestoneKeys(m))
    {
      var phasesBefore, effectiveBefore, applicationsBefore := phases, effective, applications;
      Rebind(target);
      var phasesBlocked := ReplacePhases(m, generation);
      if !phasesBlocked {
        var milestonesBlocked := ReplaceMilestones(m, generation);
        if !milestonesBlocked { return None; }
      }
      generation, effective, applications, phases := generation - 1, effectiveBefore, applicationsBefore, phasesBefore;
      return Some(if phasesBlocked then PhaseHasActivity else MilestoneHasDecisions);
    }

    method Rebind(target: RevisionId)
      modifies this`effective, this`generation, this`applications
      ensures generation == old(generation) + 1 && effective == Some(target)
      ensures applications == old(applications) + [Application(target, generation)]
    {
      generation := generation + 1;
      effective := Some(target);
      applications := applications + [Application(target, generation)];
    }

    // -------------------------------------------------------------- milestones

    /** Adds the evidence of each deliverable key to the decision, up to the first problem. */
    method CollectEvidence(m: Manifest, actor: Id, keys: seq<Key>) returns (collected: Collected)
      ensures collected == Collect(Rows(), m, actor, keys)
    {
      var evidence: map<Id, Evidence> := map[];
      for i := 0 to |keys|
        invariant Collect(Rows(), m, actor, keys[..i]) == Complete(evidence)
      {
        PrefixStep(keys, i);
        var problem := EvidenceProblem(Rows(), m, actor, keys[i]);
        if problem.Some? {
          ProblemStays(Rows(), m, actor, keys, i + 1);
          return Problem(problem.value);
        }
        var p := ProductFor(m, keys[i]).value;
        if p in evidence {
          ProblemStays(Rows(), m, actor, keys, i + 1);
          return Problem(DuplicateEvidence);
        }
        evidence := evidence[p := EvidenceOf(Tables(), p)];
      }
      assert keys[..|keys|] == keys;
      return Complete(evidence);
    }

    static lemma {:induction false} ProblemStays(db: PlanDb, m: Manifest, actor: Id, keys: seq<Key>, n: nat)
      requires n <= |keys| && Collect(db, m, actor, keys[..n]).Problem?
      ensures Collect(db, m, actor, keys) == Collect(db, m, actor, keys[..n])
      decreases |keys| - n
    {
      if n == |keys| {
        assert keys[..n] == keys;
      } else {
        PrefixStep(keys, n);
        ProblemStays(db, m, actor, keys, n + 1);
      }
    }

    method AcceptMilestone(actor: Id, k: Key, now: int, vetoed: bool) returns (reply: PlanReply)
      modifies this`gates, this`milestones
      ensures (Rows(), reply) == Plan.AcceptMilestone(old(Rows()), actor, k, now, vetoed)
    {
      if k !in milestones { return PlanRefused(MilestoneNotFound); }
      var row := milestones[k];
      if effective.None? || effective.value !in manifests || !KnownRevision(Tables(), effective.value) || row.generation != generation {
        return PlanRefused(PlanNotApproved);
      }
      var m := manifests[effective.value];
      if actor == AuthorOf(Tables(), effective.value) { return PlanRefused(SelfGateDecision); }
      if row.status == Passed {
        var last := LatestGate(gates, k, row.generation);
        if last.None? { return PlanRefused(MilestoneNotReady); }
        var evidence := gates[last.value].evidence;
        if AllCurrent(Rows(), evidence) && |evidence| == |row.deliverableKeys| { return MilestoneAccepted(last.value); }
      }
      if row.status != Pending && row.status != Passed { return PlanRefused(MilestoneNotReady); }
      if row.ruleKeys != [] { return PlanRefused(UnsupportedAcceptanceRule); }
      if !SameMilestone(m, k, row) { return PlanRefused(MilestoneNotReady); }
      if vetoed { return PlanRefused(PlanRuleVeto); }
      var collected := CollectEvidence(m, actor, row.deliverableKeys);
      if collected.Problem? { return PlanRefused(collected.error); }
      gates := gates + [GateDecision(k, effective.value, row.generation, actor, now, collected.evidence)];
      milestones := milestones[k := row.(status := Passed)];
      return MilestoneAccepted(|gates| - 1);
    }

    // -------------------------------------------------------------- phases and costs

    method TransitionPhase(k: Key, to: PhaseStatus, factsFail: bool, vetoed: bool) returns (reply: PlanReply)
      modifies this`phases
      ensures (Rows(), reply) == Plan.TransitionPhase(old(Rows()), k, to, factsFail, vetoed)
    {
      if k !in phases { return PlanRefused(PhaseNotFound); }
      var from := phases[k].status;
      if !TransitionAllowed(from, to) { return PlanRefused(TransitionInvalid); }
      if to == Completed && MilestonesPending(Rows(), k) { return PlanRefused(GateRejected); }
      if to == Active {
        var dependencies := phases[k].dependsOn;
        for i := 0 to |dependencies|
          invariant forall j | 0 <= j < i :: dependencies[j] in phases ==> phases[dependencies[j]].status == Completed
        {
          if dependencies[i] in phases && phases[dependencies[i]].status != Completed {
            assert Unmet(Rows(), k);
            return PlanRefused(DependencyNotMet);
          }
        }
        assert !Unmet(Rows(), k);
      }
      if factsFail || vetoed { return PlanRefused(GateRejected); }
      phases := phases[k := phases[k].(status := to)];
      return PhaseMoved(from, to);
    }

    method LogWorkRecord(record: WorkRecord) returns (reply: PlanReply)
      modifies this`work
      ensures (Rows(), reply) == LogWork(old(Rows()), record)
    {
      if record.phase !in phases { return PlanRefused(PhaseNotFound); }
      if phases[record.phase].status != Active { return PlanRefused(PhaseNotOpen); }
      if !ValidWork(record) { return PlanRefused(RecordInvalid); }
      work := work + [record];
      return CostRecorded;
    }

    method RecordExpense(expense: Expense, baseline: Option<string>) returns (reply: PlanReply)
      modifies this`expenses
      ensures (Rows(), reply) == Plan.RecordExpense(old(Rows()), expense, baseline)
    {
      if expense.phase !in phases { return PlanRefused(PhaseNotFound); }
      if phases[expense.phase].status != Active { return PlanRefused(PhaseNotOpen); }
      if baseline.Some? && baseline.value != expense.currency { return PlanRefused(CurrencyMismatch); }
      if !ValidExpense(expense) { return PlanRefused(RecordInvalid); }
      expenses := expenses + [expense];
      return CostRecorded;
    }
  }
}
