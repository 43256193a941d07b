/**
 Runs of the review protocol: any sequence of calls by anybody, from any tables that meet the constraints of the schema.
 Every call keeps those constraints and only adds to the tables, and every call keeps the protocol.
 */
module ReviewRuns {
  import opened Wrappers
  import opened Review
  import opened ReviewSafety

  datatype Call =
    | CallCreatePlan(actor: Id, project: Id, code: string, hash: string)
    | CallCreate(actor: Id, project: Id, code: string, title: string, productType: ProductType, hash: string)
    | CallRevise(actor: Id, project: Id, product: Id, expected: nat, hash: string, vetoed: bool)
    | CallReviseSpecification(actor: Id, project: Id, product: Id, expected: nat, hash: string, contentValid: bool)
    | CallSubmit(project: Id, product: Id, assignments: seq<Assignment>, eligible: set<Assignment>, vetoed: bool)
    | CallDecide(actor: Id, project: Id, product: Id, kind: Kind, reason: string, key: string, vetoed: bool)
    | CallRetire(project: Id, product: Id, expected: nat, vetoed: bool)
    | CallApplyPlan(product: Id)

  const EmptyDb: Db := Db(map[], map[], map[], {}, [], 0)

  ghost function Answer(db: Db, call: Call): (Db, Reply)
    requires Schema(db)
  {
    match call
    case CallCreatePlan(actor, project, code, hash) =>
      if CodeInUse(db, project, code) then (db, Refused(CodeTaken))
      else (Insert(db, actor, project, code, PlanType, hash), Created(db.nextId))
    case CallCreate(actor, project, code, title, productType, hash) => Create(db, actor, project, code, title, productType, hash)
    case CallRevise(actor, project, p, expected, hash, vetoed) => Revise(db, actor, project, p, expected, hash, vetoed)
    case CallReviseSpecification(actor, project, p, expected, hash, contentValid) =>
      ReviseSpecification(db, actor, project, p, expected, hash, contentValid)
    case CallSubmit(project, p, assignments, eligible, vetoed) => Submit(db, project, p, assignments, eligible, vetoed)
    case CallDecide(actor, project, p, kind, reason, key, vetoed) => Decide(db, actor, project, p, kind, reason, key, vetoed)
    case CallRetire(project, p, expected, vetoed) => Retire(db, project, p, expected, vetoed)
    case CallApplyPlan(p) => if p in db.products then (Bump(db, p), Revised(Latest(db, p))) else (db, Refused(ProductNotFound))
  }

  ghost function Step(db: Db, call: Call): Db
    requires Schema(db)
  {
    Answer(db, call).0
  }

  // ---------------------------------------------------------------- every call keeps the constraints of the schema

  /** A decision that changes anything is admissible on the open request and has its effect. */
  lemma DecideShape(db: Db, actor: Id, project: Id, p: Id, kind: Kind, reason: string, key: string, vetoed: bool)
    requires Schema(db) && Decide(db, actor, project, p, kind, reason, key, vetoed).0 != db
    ensures p in db.products && HasOpen(db, p) && db.products[p].status == InReview
    ensures var q := TheOpen(db, p);
            && KnownRevision(db, db.requests[q].revision)
            && var d := NewDecision(db, q, actor, kind, reason, key);
            && Decide(db, actor, project, p, kind, reason, key, vetoed).0 == Effect(Record(db, d), q, p, kind)
            && Refusal(db, q, actor, kind, vetoed).None?
            && (d.key.Some? ==> FindKey(db.decisions, d.key.value).None?)
  {
  }

  lemma RefusedNotAdmissible(db: Db, q: Id, actor: Id, kind: Kind, reason: string, key: string, vetoed: bool)
    requires Schema(db) && q in db.requests && Refusal(db, q, actor, kind, vetoed).None?
    requires var d := NewDecision(db, q, actor, kind, reason, key); d.key.Some? ==> FindKey(db.decisions, d.key.value).None?
    ensures Admissible(db, q, NewDecision(db, q, actor, kind, reason, key))
    ensures kind == Approval ==> HasPositiveReview(db.decisions, q)
  {
  }

  lemma DecideSchema(db: Db, actor: Id, project: Id, p: Id, kind: Kind, reason: string, key: string, vetoed: bool)
    requires Schema(db)
    ensures var after := Decide(db, actor, project, p, kind, reason, key, vetoed).0; Schema(after) && Grows(db, after)
  {
    if Decide(db, actor, project, p, kind, reason, key, vetoed).0 != db {
      DecideShape(db, actor, project, p, kind, reason, key, vetoed);
      var q := TheOpen(db, p);
      RefusedNotAdmissible(db, q, actor, kind, reason, key, vetoed);
      DecisionSchema(db, q, p, NewDecision(db, q, actor, kind, reason, key));
    }
  }

  lemma SubmitSchema(db: Db, project: Id, p: Id, assignments: seq<Assignment>, eligible: set<Assignment>, vetoed: bool)
    requires Schema(db)
    ensures var after := Submit(db, project, p, assignments, eligible, vetoed).0; Schema(after) && Grows(db, after)
  {
    if Submit(db, project, p, assignments, eligible, vetoed).0 != db {
      SubmissionSchema(db, project, p, assignments);
      SubmissionGrows(db, project, p, assignments);
    }
  }

  lemma RevisionSchema(db: Db, call: Call)
    requires Schema(db) && (call.CallRevise? || call.CallReviseSpecification? || call.CallRetire?)
    ensures Schema(Step(db, call)) && Grows(db, Step(db, call))
  {
    if Step(db, call) != db {
      match call
      case CallRevise(actor, _, p, _, hash, _) =>
        AddRevisionSchema(db, p, Revision(hash, actor));
        AddRevisionGrows(db, p, Revision(hash, actor));
      case CallReviseSpecification(actor, _, p, _, hash, _) => AppendOnlySchema(db, p, Revision(hash, actor));
      case CallRetire(_, p, _, _) =>
        RetirementSchema(db, p);
        RetirementGrows(db, p);
    }
  }

  lemma CreationSchema(db: Db, call: Call)
    requires Schema(db) && (call.CallCreatePlan? || call.CallCreate? || call.CallApplyPlan?)
    ensures Schema(Step(db, call)) && Grows(db, Step(db, call))
  {
    if Step(db, call) != db {
      match call
      case CallCreatePlan(actor, project, code, hash) => InsertSchema(db, actor, project, code, PlanType, hash);
      case CallCreate(actor, project, code, _, productType, hash) => InsertSchema(db, actor, project, code, productType, hash);
      case CallApplyPlan(p) => BumpSchema(db, p);
    }
  }

  lemma StepSchema(db: Db, call: Call)
    requires Schema(db)
    ensures Schema(Step(db, call)) && Grows(db, Step(db, call))
  {
    match call
    case CallSubmit(project, p, assignments, eligible, vetoed) => SubmitSchema(db, project, p, assignments, eligible, vetoed);
    case CallDecide(actor, project, p, kind, reason, key, vetoed) => DecideSchema(db, actor, project, p, kind, reason, key, vetoed);
    case CallRevise(_, _, _, _, _, _) => RevisionSchema(db, call);
    case CallReviseSpecification(_, _, _, _, _, _) => RevisionSchema(db, call);
    case CallRetire(_, _, _, _) => RevisionSchema(db, call);
    case _ => CreationSchema(db, call);
  }

  // ---------------------------------------------------------------- every call keeps the protocol

  lemma DecideKeeps(db: Db, actor: Id, project: Id, p: Id, kind: Kind, reason: string, key: string, vetoed: bool)
    requires ReviewInvariant(db)
    ensures ReviewInvariant(Decide(db, actor, project, p, kind, reason, key, vetoed).0)
  {
    if Decide(db, actor, project, p, kind, reason, key, vetoed).0 != db {
      DecideShape(db, actor, project, p, kind, reason, key, vetoed);
      var q := TheOpen(db, p);
      RefusedNotAdmissible(db, q, actor, kind, reason, key, vetoed);
      DecisionKeeps(db, q, p, NewDecision(db, q, actor, kind, reason, key));
    }
  }

  lemma SubmitKeeps(db: Db, project: Id, p: Id, assignments: seq<Assignment>, eligible: set<Assignment>, vetoed: bool)
    requires ReviewInvariant(db)
    ensures ReviewInvariant(Submit(db, project, p, assignments, eligible, vetoed).0)
  {
    if Submit(db, project, p, assignments, eligible, vetoed).0 != db { SubmissionKeeps(db, project, p, assignments); }
  }

  lemma RevisionKeeps(db: Db, call: Call)
    requires ReviewInvariant(db) && (call.CallRevise? || call.CallReviseSpecification? || call.CallRetire?)
    ensures ReviewInvariant(Step(db, call))
  {
    if Step(db, call) != db {
      match call
      case CallRevise(actor, _, p, _, hash, _) => AddRevisionKeeps(db, p, Revision(hash, actor));
      case CallReviseSpecification(actor, _, p, _, hash, _) => AppendOnlyKeeps(db, p, Revision(hash, actor));
      case CallRetire(_, p, _, _) => RetirementKeeps(db, p);
    }
  }

  lemma CreationKeeps(db: Db, call: Call)
    requires ReviewInvariant(db) && (call.CallCreatePlan? || call.CallCreate? || call.CallApplyPlan?)
    ensures ReviewInvariant(Step(db, call))
  {
    if Step(db, call) != db {
      match call
      case CallCreatePlan(actor, project, code, hash) => InsertKeeps(db, actor, project, code, PlanType, hash);
      case CallCreate(actor, project, code, _, productType, hash) => InsertKeeps(db, actor, project, code, productType, hash);
      case CallApplyPlan(p) => BumpKeeps(db, p);
    }
  }

  lemma StepKeeps(db: Db, call: Call)
    requires ReviewInvariant(db)
    ensures ReviewInvariant(Step(db, call))
  {
    match call
    case CallSubmit(project, p, assignments, eligible, vetoed) => SubmitKeeps(db, project, p, assignments, eligible, vetoed);
    case CallDecide(actor, project, p, kind, reason, key, vetoed) => DecideKeeps(db, actor, project, p, kind, reason, key, vetoed);
    case CallRevise(_, _, _, _, _, _) => RevisionKeeps(db, call);
    case CallReviseSpecification(_, _, _, _, _, _) => RevisionKeeps(db, call);
    case CallRetire(_, _, _, _) => RevisionKeeps(db, call);
    case _ => CreationKeeps(db, call);
  }

  // ---------------------------------------------------------------- runs

  /** The tables after a call, which meet the constraints of the schema again. */
  ghost function Next(db: Db, call: Call): (after: Db)
    requires Schema(db)
    ensures Schema(after)
  {
    StepSchema(db, call);
    Step(db, call)
  }

  ghost function Run(db: Db, calls: seq<Call>): (after: Db)
    requires Schema(db)
    ensures Schema(after)
    decreases |calls|
  {
    if calls == [] then db else Run(Next(db, calls[0]), calls[1..])
  }

  lemma GrowsTransitive(a: Db, b: Db, c: Db)
    requires Grows(a, b) && Grows(b, c)
    ensures Grows(a, c)
  {
  }

  lemma {:induction false} RunGrows(db: Db, calls: seq<Call>)
    requires Schema(db)
    ensures Grows(db, Run(db, calls))
    decreases |calls|
  {
    if calls != [] {
      var next := Next(db, calls[0]);
      StepSchema(db, calls[0]);
      RunGrows(next, calls[1..]);
      GrowsTransitive(db, next, Run(next, calls[1..]));
    }
  }

  lemma {:induction false} RunKeeps(db: Db, calls: seq<Call>)
    requires ReviewInvariant(db)
    ensures ReviewInvariant(Run(db, calls))
    decreases |calls|
  {
    if calls != [] {
      StepKeeps(db, calls[0]);
      RunKeeps(Next(db, calls[0]), calls[1..]);
    }
  }

  lemma {:induction false} RunAppend(db: Db, calls: seq<Call>, call: Call)
    requires Schema(db)
    ensures Run(db, calls + [call]) == Next(Run(db, calls), call)
    decreases |calls|
  {
    if calls != [] {
      assert (calls + [call])[0] == calls[0] && (calls + [call])[1..] == calls[1..] + [call];
      RunAppend(Next(db, calls[0]), calls[1..], call);
    }
  }

  // ---------------------------------------------------------------- what the invariant gives a reader

  /** The revision carries an approval by an assigned approver, after a positive review
      in the same request by an assigned reviewer, neither of them its author. */
  ghost predicate Certified(db: Db, r: RevisionId) {
    KnownRevision(db, r) &&
    exists i, j | 0 <= j < i < |db.decisions| :: CertifiedBy(db, r, i, j)
  }

  ghost predicate CertifiedBy(db: Db, r: RevisionId, i: nat, j: nat)
    requires KnownRevision(db, r) && i < |db.decisions| && j < |db.decisions|
  {
    var approval, review := db.decisions[i], db.decisions[j];
    && approval.kind == Approval && approval.outcome == Positive && approval.revision == r
    && review.kind == ReviewKind && review.outcome == Positive && review.revision == r
    && review.request == approval.request
    && approval.hash == review.hash == RevisionOf(db, r).hash
    && Assigned(approval.request, approval.decider, Approver) in db.assignees && approval.decider != AuthorOf(db, r)
    && Assigned(review.request, review.decider, Reviewer) in db.assignees && review.decider != AuthorOf(db, r)
  }

  /** Every revision with an approval is certified, whatever became of its product since. */
  lemma ApprovalCertifies(db: Db, i: nat)
    requires ReviewInvariant(db) && i < |db.decisions| && db.decisions[i].kind == Approval
    ensures Certified(db, db.decisions[i].revision)
  {
    var r := db.decisions[i].revision;
    assert ReviewedApproval(db.decisions, i, r);
    var j :| 0 <= j < i && IsPositiveReview(db.decisions[..i][j], db.decisions[i].request);
    assert Independent(db, i) && Independent(db, j);
    assert CertifiedBy(db, r, i, j);
  }

  lemma EmptyIsValid()
    ensures ReviewInvariant(EmptyDb)
  {
  }

  /** The empty database, from which every state is reached. */
  ghost function Start(): (db: Db)
    ensures ReviewInvariant(db)
  {
    EmptyIsValid();
    EmptyDb
  }

  // ---------------------------------------------------------------- branches never taken

  lemma RefusalNeverStale(db: Db, actor: Id, p: Id, kind: Kind, vetoed: bool)
    requires RequestsRefer(db) && HashesPinned(db) && HasOpen(db, p)
    ensures Refusal(db, TheOpen(db, p), actor, kind, vetoed) != Some(StaleRevision)
  {
  }

  /** The branches of a decision for a stale hash and for a missing request are never taken. */
  lemma DecideNeverStale(db: Db, actor: Id, project: Id, p: Id, kind: Kind, reason: string, key: string, vetoed: bool)
    requires ReviewInvariant(db)
    ensures Decide(db, actor, project, p, kind, reason, key, vetoed).1 !in {Refused(StaleRevision), Refused(RequestMissing)}
  {
    if HasOpen(db, p) { RefusalNeverStale(db, actor, p, kind, vetoed); }
  }

  /** Nor is the branch of a submission for a request that is already open. */
  lemma SubmitNeverFindsOpen(db: Db, project: Id, p: Id, assignments: seq<Assignment>, eligible: set<Assignment>, vetoed: bool)
    requires InReviewIffOpen(db)
    ensures Submit(db, project, p, assignments, eligible, vetoed).1 != Refused(RequestAlreadyOpen)
  {
    assert p in db.products && db.products[p].status == Draft ==> !HasOpen(db, p);
  }

  // ---------------------------------------------------------------- obsolete products

  /** The seeded rule: a revision of an obsolete product is vetoed. */
  ghost predicate VetoesObsolete(db: Db, call: Call) {
    call.CallRevise? && call.product in db.products && db.products[call.product].status == Obsolete ==> call.vetoed
  }

  ghost predicate VetoingRun(db: Db, calls: seq<Call>)
    requires Schema(db)
    decreases |calls|
  {
    calls == [] || (VetoesObsolete(db, calls[0]) && VetoingRun(Next(db, calls[0]), calls[1..]))
  }

  lemma ObsoleteDecide(db: Db, actor: Id, project: Id, other: Id, kind: Kind, reason: string, key: string, vetoed: bool, p: Id)
    requires Schema(db) && p in db.products && db.products[p].status == Obsolete
    ensures var after := Decide(db, actor, project, other, kind, reason, key, vetoed).0;
            p in after.products && after.products[p].status == Obsolete && History(after, p) == History(db, p)
  {
    if Decide(db, actor, project, other, kind, reason, key, vetoed).0 != db {
      DecideShape(db, actor, project, other, kind, reason, key, vetoed);
    }
  }

  lemma ObsoleteStep(db: Db, call: Call, p: Id)
    requires Schema(db) && p in db.products && db.products[p].status == Obsolete && VetoesObsolete(db, call)
    ensures p in Step(db, call).products && Step(db, call).products[p].status == Obsolete
    ensures History(Step(db, call), p) == History(db, p)
  {
    match call
    case CallDecide(actor, project, other, kind, reason, key, vetoed) =>
      ObsoleteDecide(db, actor, project, other, kind, reason, key, vetoed, p);
    case _ =>
  }

  /** While that rule is active, a retired product stays retired, with the same revisions, in every later state. */
  lemma {:induction false} ObsoleteStays(db: Db, calls: seq<Call>, p: Id)
    requires Schema(db) && VetoingRun(db, calls) && p in db.products && db.products[p].status == Obsolete
    ensures var after := Run(db, calls);
            p in after.products && after.products[p].status == Obsolete && History(after, p) == History(db, p)
    decreases |calls|
  {
    if calls != [] {
      ObsoleteStep(db, calls[0], p);
      ObsoleteStays(Next(db, calls[0]), calls[1..], p);
    }
  }

  // ---------------------------------------------------------------- operation keys

  /** What a call must share with the decision stored under its key to be the same call. */
  ghost predicate SameCall(db: Db, d: Decision, actor: Id, project: Id, p: Id, kind: Kind, reason: string)
    requires d.request in db.requests
  {
    && d.decider == actor && db.requests[d.request].project == project && db.requests[d.request].product == p
    && d.kind == kind && d.reason == NullIfBlank(reason)
  }

  lemma KeyFound(ds: seq<Decision>, i: nat, key: string)
    requires OneDecisionPerKey(ds) && i < |ds| && ds[i].key == Some(key)
    ensures FindKey(ds, key) == Some(i)
  {
    var j := FindKey(ds, key).value;
    assert !(j < i) && !(i < j);
  }

  /** A repeated key changes nothing, and is answered with the stored decision exactly when the call is the same
      and the decision is about the revision that is now the latest. */
  lemma ReplayExact(db: Db, i: nat, actor: Id, project: Id, p: Id, kind: Kind, reason: string, key: string, vetoed: bool)
    requires Schema(db) && i < |db.decisions| && key != "" && db.decisions[i].key == Some(key)
    requires kind == RequestChanges ==> reason != ""
    ensures var (after, reply) := Decide(db, actor, project, p, kind, reason, key, vetoed);
            && after == db
            && (if SameCall(db, db.decisions[i], actor, project, p, kind, reason) && db.decisions[i].revision == Latest(db, p)
                then p in db.products && reply == Decided(db.decisions[i], db.products[p].status)
                else reply == Refused(OperationConflict))
  {
    KeyFound(db.decisions, i, key);
  }

  /** A fresh key commits one decision, on the revision its request pins, that later calls can be compared with. */
  lemma CommittedDecision(db: Db, actor: Id, project: Id, p: Id, kind: Kind, reason: string, key: string, vetoed: bool)
    requires Schema(db) && key != ""
    requires FindKey(db.decisions, key).None? && Decide(db, actor, project, p, kind, reason, key, vetoed).1.Decided?
    ensures var (committed, reply) := Decide(db, actor, project, p, kind, reason, key, vetoed);
            && committed.decisions == db.decisions + [reply.decision]
            && reply.decision.key == Some(key)
            && reply.decision.request in committed.requests
            && SameCall(committed, reply.decision, actor, project, p, kind, reason)
            && reply.decision.revision == committed.requests[reply.decision.request].revision
            && reply.decision.revision.product == p
  {
    var q := TheOpen(db, p);
  }

  lemma SameCallAfter(committed: Db, now: Db, d: Decision, actor: Id, project: Id, p: Id, kind: Kind, reason: string)
    requires Grows(committed, now) && d.request in committed.requests
    requires SameCall(committed, d, actor, project, p, kind, reason)
    ensures d.request in now.requests
    ensures SameCall(now, d, actor, project, p, kind, reason)
  {
  }

  /** The same call again, whatever the rules say of it this time. */
  function Repeated(call: Call, vetoed: bool): Call
    requires call.CallDecide?
  {
    CallDecide(call.actor, call.project, call.product, call.kind, call.reason, call.key, vetoed)
  }

  /** After any run, repeating a committed call returns its decision if that is about the latest revision,
      and is refused otherwise; the tables stay as they are either way. */
  lemma ReplayAfterRun(db: Db, call: Call, calls: seq<Call>, vetoedNow: bool)
    requires Schema(db) && call.CallDecide? && call.key != ""
    requires FindKey(db.decisions, call.key).None? && Answer(db, call).1.Decided?
    ensures var now := Run(Next(db, call), calls);
            var (after, again) := Answer(now, Repeated(call, vetoedNow));
            && after == now
            && call.product in now.products
            && again == (if Latest(now, call.product) == Answer(db, call).1.decision.revision
                         then Decided(Answer(db, call).1.decision, now.products[call.product].status)
                         else Refused(OperationConflict))
  {
    var CallDecide(actor, project, p, kind, reason, key, vetoed) := call;
    var committed := Next(db, call);
    CommittedDecision(db, actor, project, p, kind, reason, key, vetoed);
    RunGrows(committed, calls);
    ReplayLater(committed, Run(committed, calls), |db.decisions|, actor, project, p, kind, reason, key, vetoedNow);
  }

  lemma ReplayLater(committed: Db, now: Db, i: nat, actor: Id, project: Id, p: Id, kind: Kind, reason: string, key: string, vetoed: bool)
    requires Schema(now) && Grows(committed, now) && i < |committed.decisions| && key != ""
    requires committed.decisions[i].key == Some(key) && committed.decisions[i].request in committed.requests
    requires kind == RequestChanges ==> reason != ""
    requires SameCall(committed, committed.decisions[i], actor, project, p, kind, reason)
    ensures var (after, again) := Decide(now, actor, project, p, kind, reason, key, vetoed);
            && after == now
            && p in now.products
            && again == (if Latest(now, p) == committed.decisions[i].revision then Decided(committed.decisions[i], now.products[p].status)
                         else Refused(OperationConflict))
  {
    assert now.decisions[i] == committed.decisions[i];
    SameCallAfter(committed, now, committed.decisions[i], actor, project, p, kind, reason);
    ReplayExact(now, i, actor, project, p, kind, reason, key, vetoed);
  }
}
