/**
 When the calls of the review protocol are accepted, what they leave untouched, and what row versions are for.
 */
module ReviewExact {
  import opened Wrappers
  import opened Review
  import opened ReviewSafety
  import opened ReviewRuns

  // ---------------------------------------------------------------- submission

  predicate DistinctAssignments(assignments: seq<Assignment>) {
    forall i, j | 0 <= i < j < |assignments| :: assignments[i] != assignments[j]
  }

  /** Everybody proposed is a reviewer or an approver with that permission, nobody twice in a role, and nobody is the author. */
  predicate ProperAssignments(assignments: seq<Assignment>, author: Id, eligible: set<Assignment>) {
    && DistinctAssignments(assignments)
    && (forall i | 0 <= i < |assignments| ::
          assignments[i] in eligible && !assignments[i].role.OtherRole? && assignments[i].user != author)
    && HasRole(assignments, Reviewer) && HasRole(assignments, Approver)
  }

  lemma NoOffenceIsProper(assignments: seq<Assignment>, author: Id, eligible: set<Assignment>)
    ensures FirstOffence(assignments, |assignments|, author, eligible).None? && HasRole(assignments, Reviewer) && HasRole(assignments, Approver)
            <==> ProperAssignments(assignments, author, eligible)
  {
    var n := |assignments|;
    if FirstOffence(assignments, n, author, eligible).None? {
      forall i, j | 0 <= i < j < n ensures assignments[i] != assignments[j] {
        assert Offence(assignments, j, author, eligible).None?;
        assert assignments[..j][i] == assignments[i];
      }
      forall i | 0 <= i < n ensures assignments[i] in eligible && !assignments[i].role.OtherRole? && assignments[i].user != author {
        assert Offence(assignments, i, author, eligible).None?;
      }
    }
    if ProperAssignments(assignments, author, eligible) {
      forall i | 0 <= i < n ensures Offence(assignments, i, author, eligible).None? {
        assert forall j | 0 <= j < i :: assignments[..i][j] != assignments[i];
      }
    }
  }

  /** A submission is accepted exactly for a draft of the project with a revision, proper assignments and no veto. */
  lemma SubmitAcceptsExactly(db: Db, project: Id, p: Id, assignments: seq<Assignment>, eligible: set<Assignment>, vetoed: bool)
    requires ReviewInvariant(db)
    ensures Submit(db, project, p, assignments, eligible, vetoed).1.Submitted? <==>
            && InProject(db, p, project) && db.products[p].status == Draft && !vetoed
            && ProperAssignments(assignments, AuthorOf(db, Latest(db, p)), eligible)
  {
    if InProject(db, p, project) && db.products[p].status == Draft {
      NoOffenceIsProper(assignments, AuthorOf(db, Latest(db, p)), eligible);
      assert !HasOpen(db, p);
    }
  }

  /** The people assigned to the new request are exactly those proposed; nobody's other assignments change. */
  lemma SubmitAssignsExactly(db: Db, project: Id, p: Id, assignments: seq<Assignment>, eligible: set<Assignment>, vetoed: bool, a: Assigned)
    requires ReviewInvariant(db) && Submit(db, project, p, assignments, eligible, vetoed).1.Submitted?
    ensures var (after, reply) := Submit(db, project, p, assignments, eligible, vetoed);
            && IsOpen(after, reply.request, p) && after.requests[reply.request].revision == Latest(db, p)
            && reply.request !in db.requests
            && (a in after.assignees <==>
                  if a.request == reply.request then Assignment(a.user, a.role) in assignments else a in db.assignees)
  {
  }

  // ---------------------------------------------------------------- decisions

  /** On request q the actor is assigned for this kind of decision, did not write the revision it pins, and has not decided so
      before; an approval also needs a positive review. */
  ghost predicate MayDecideOn(db: Db, q: Id, actor: Id, kind: Kind)
    requires q in db.requests && KnownRevision(db, db.requests[q].revision)
  {
    && (kind == ReviewKind ==> Assigned(q, actor, Reviewer) in db.assignees)
    && (kind == Approval ==> Assigned(q, actor, Approver) in db.assignees)
    && (kind == RequestChanges ==> Assigned(q, actor, Reviewer) in db.assignees || Assigned(q, actor, Approver) in db.assignees)
    && actor != AuthorOf(db, db.requests[q].revision)
    && (forall i | 0 <= i < |db.decisions| ::
          !(db.decisions[i].request == q && db.decisions[i].decider == actor && db.decisions[i].kind == kind))
    && (kind == Approval ==> exists i | 0 <= i < |db.decisions| ::
          db.decisions[i].request == q && db.decisions[i].kind == ReviewKind && db.decisions[i].outcome == Positive)
  }

  /** A decision under a fresh key is accepted exactly when the product is in review, the actor is assigned for this kind of
      decision on its open request, did not write the revision under review and has not decided so before; an approval
      also needs a positive review, a demand for changes a reason, and both the consent of the rules. */
  lemma DecideAcceptsExactly(db: Db, actor: Id, project: Id, p: Id, kind: Kind, reason: string, key: string, vetoed: bool)
    requires ReviewInvariant(db) && (key != "" ==> FindKey(db.decisions, key).None?)
    ensures Decide(db, actor, project, p, kind, reason, key, vetoed).1.Decided? <==>
            && p in db.products && db.products[p].project == project && HasOpen(db, p)
            && MayDecideOn(db, TheOpen(db, p), actor, kind)
            && (kind == RequestChanges ==> reason != "")
            && (kind != ReviewKind ==> !vetoed)
  {
    if InProject(db, p, project) && HasOpen(db, p) { RefusalNeverStale(db, actor, p, kind, vetoed); }
  }

  // ---------------------------------------------------------------- retirement

  /** A retirement is accepted exactly for a product of the project that is not its plan, and that is obsolete already or
      has the expected row version and no veto. Its status does not matter: drafts, products in review and approved ones alike. */
  lemma RetireAcceptsExactly(db: Db, project: Id, p: Id, expected: nat, vetoed: bool)
    ensures Retire(db, project, p, expected, vetoed).1.Retired? <==>
            && InProject(db, p, project) && db.products[p].productType != PlanType
            && (db.products[p].status == Obsolete || (db.products[p].rowVersion == expected && !vetoed))
  {
  }

  /** After an accepted retirement the product is obsolete and has no open request; one that was obsolete is left as it was. */
  lemma RetireRetires(db: Db, project: Id, p: Id, expected: nat, vetoed: bool)
    requires InReviewIffOpen(db) && Retire(db, project, p, expected, vetoed).1.Retired?
    ensures var after := Retire(db, project, p, expected, vetoed).0;
            && p in after.products && after.products[p].status == Obsolete && !HasOpen(after, p)
            && History(after, p) == History(db, p)
            && (db.products[p].status == Obsolete ==> after == db)
  {
    if db.products[p].status != Obsolete { RetirementOpenness(db, p); }
  }

  // ---------------------------------------------------------------- what an accepted call does

  /** What a decision under a fresh key does to the product in review and to its open request q, by kind. */
  lemma DecisionMoves(db: Db, actor: Id, project: Id, p: Id, kind: Kind, reason: string, key: string, vetoed: bool, q: Id)
    requires Schema(db) && IsOpen(db, q, p) && (key != "" ==> FindKey(db.decisions, key).None?)
    requires Decide(db, actor, project, p, kind, reason, key, vetoed).1.Decided?
    ensures var (after, reply) := Decide(db, actor, project, p, kind, reason, key, vetoed);
            && p in after.products && q in after.requests
            && after.products[p].status == (match kind case ReviewKind => InReview case Approval => Approved case RequestChanges => Draft)
            && after.requests[q].status == (match kind case ReviewKind => Open case Approval => RequestApproved case RequestChanges => ChangesRequested)
            && reply.productStatus == after.products[p].status
            && History(after, p) == History(db, p)
  {
  }

  /** The row that it adds: on the revision and hash that the request pins, by the actor, with what was given and nothing else. */
  lemma DecisionRow(db: Db, actor: Id, project: Id, p: Id, kind: Kind, reason: string, key: string, vetoed: bool, q: Id)
    requires Schema(db) && IsOpen(db, q, p) && (key != "" ==> FindKey(db.decisions, key).None?)
    requires Decide(db, actor, project, p, kind, reason, key, vetoed).1.Decided?
    ensures var (after, reply) := Decide(db, actor, project, p, kind, reason, key, vetoed);
            && after.decisions == db.decisions + [reply.decision]
            && reply.decision.request == q && reply.decision.revision == db.requests[q].revision && reply.decision.hash == db.requests[q].hash
            && reply.decision.kind == kind && reply.decision.decider == actor
            && (reply.decision.outcome == ChangesWanted <==> kind == RequestChanges)
            && reply.decision.reason == (if reason == "" then None else Some(reason))
            && reply.decision.key == (if key == "" then None else Some(key))
  {
  }

  /** An accepted submission puts the product in review, and its new request pins the latest revision with its hash. */
  lemma SubmissionMoves(db: Db, project: Id, p: Id, assignments: seq<Assignment>, eligible: set<Assignment>, vetoed: bool)
    requires Schema(db) && Submit(db, project, p, assignments, eligible, vetoed).1.Submitted?
    ensures var (after, reply) := Submit(db, project, p, assignments, eligible, vetoed);
            && p in after.products && after.products[p].status == InReview && History(after, p) == History(db, p)
            && reply.request in after.requests
            && after.requests[reply.request] == Request(project, p, RevisionId(p, |History(db, p)|), History(db, p)[|History(db, p)| - 1].hash, Open)
            && after.decisions == db.decisions
  {
  }

  /** A product is created exactly for a type other than the plan's, a code that is free in the project, and a title. */
  lemma CreateExactly(db: Db, actor: Id, project: Id, code: string, title: string, productType: ProductType, hash: string)
    requires Schema(db)
    ensures var (after, reply) := Create(db, actor, project, code, title, productType, hash);
            && (reply.Created? <==>
                  && productType in {SpecificationType, CoreType} && code != "" && title != ""
                  && forall p | p in db.products :: db.products[p].project != project || db.products[p].code != code)
            && (reply.Created? ==>
                  && reply.product !in db.products
                  && after.products == db.products[reply.product := WorkProduct(project, code, productType, Draft, 1)]
                  && History(after, reply.product) == [Revision(hash, actor)])
            && (!reply.Created? ==> after == db)
  {
  }

  /** A revision is accepted exactly for a product of the project at the expected row version, without veto; it is added
      to the history, the product is a draft again and none of its requests is open. */
  lemma ReviseExactly(db: Db, actor: Id, project: Id, p: Id, expected: nat, hash: string, vetoed: bool)
    requires Schema(db)
    ensures var (after, reply) := Revise(db, actor, project, p, expected, hash, vetoed);
            && (reply.Revised? <==> p in db.products && db.products[p].project == project && !vetoed && db.products[p].rowVersion == expected)
            && (reply.Revised? ==>
                  && p in after.products && after.products[p] == db.products[p].(status := Draft, rowVersion := expected + 1)
                  && History(after, p) == History(db, p) + [Revision(hash, actor)] && reply.revision == RevisionId(p, |History(after, p)|)
                  && (forall q | q in db.requests && db.requests[q].product == p ::
                        q in after.requests && after.requests[q].status == if db.requests[q].status == Open then Superseded else db.requests[q].status))
            && (!reply.Revised? ==> after == db)
  {
  }

  /** A specification revision is accepted exactly for a specification of the project with valid content that is not obsolete,
      at the expected row version; it is added to the history, and neither the status nor any request changes. */
  lemma ReviseSpecificationExactly(db: Db, actor: Id, project: Id, p: Id, expected: nat, hash: string, contentValid: bool)
    requires Schema(db)
    ensures var (after, reply) := ReviseSpecification(db, actor, project, p, expected, hash, contentValid);
            && (reply.Revised? <==>
                  && contentValid && p in db.products && db.products[p].project == project && db.products[p].productType == SpecificationType
                  && db.products[p].status != Obsolete && db.products[p].rowVersion == expected)
            && (reply.Revised? ==>
                  && p in after.products && after.products[p] == db.products[p].(rowVersion := expected + 1)
                  && History(after, p) == History(db, p) + [Revision(hash, actor)] && reply.revision == RevisionId(p, |History(after, p)|)
                  && after.requests == db.requests)
            && (!reply.Revised? ==> after == db)
  {
  }

  // ---------------------------------------------------------------- other products

  /** The product a call is about, if it is about an existing one. */
  function ProductOf(call: Call): Option<Id> {
    match call
    case CallCreatePlan(_, _, _, _) => None
    case CallCreate(_, _, _, _, _, _) => None
    case CallRevise(_, _, p, _, _, _) => Some(p)
    case CallReviseSpecification(_, _, p, _, _, _) => Some(p)
    case CallSubmit(_, p, _, _, _) => Some(p)
    case CallDecide(_, _, p, _, _, _, _) => Some(p)
    case CallRetire(_, p, _, _) => Some(p)
    case CallApplyPlan(p) => Some(p)
  }

  /** The row, the revisions and the requests of the product are as they were. */
  ghost predicate Untouched(db: Db, after: Db, p: Id)
    requires p in db.products
  {
    && p in after.products && after.products[p] == db.products[p] && History(after, p) == History(db, p)
    && (forall q :: q in db.requests && db.requests[q].product == p ==> q in after.requests && after.requests[q] == db.requests[q])
    && (forall q :: q in after.requests && after.requests[q].product == p ==> q in db.requests && db.requests[q] == after.requests[q])
  }

  lemma UntouchedByDecide(db: Db, actor: Id, project: Id, other: Id, kind: Kind, reason: string, key: string, vetoed: bool, p: Id)
    requires Schema(db) && p in db.products && p != other
    ensures Untouched(db, Decide(db, actor, project, other, kind, reason, key, vetoed).0, p)
  {
    if Decide(db, actor, project, other, kind, reason, key, vetoed).0 != db {
      DecideShape(db, actor, project, other, kind, reason, key, vetoed);
    }
  }

  lemma UntouchedByProductCall(db: Db, call: Call, p: Id)
    requires Schema(db) && p in db.products && ProductOf(call) != Some(p) && !call.CallDecide? && !call.CallSubmit?
    ensures Untouched(db, Step(db, call), p)
  {
  }

  lemma UntouchedBySubmit(db: Db, project: Id, other: Id, assignments: seq<Assignment>, eligible: set<Assignment>, vetoed: bool, p: Id)
    requires Schema(db) && p in db.products && p != other
    ensures Untouched(db, Submit(db, project, other, assignments, eligible, vetoed).0, p)
  {
  }

  /** A call about one product leaves every other product alone. */
  lemma OthersUntouched(db: Db, call: Call, p: Id)
    requires Schema(db) && p in db.products && ProductOf(call) != Some(p)
    ensures Untouched(db, Step(db, call), p)
  {
    match call
    case CallDecide(actor, project, other, kind, reason, key, vetoed) =>
      UntouchedByDecide(db, actor, project, other, kind, reason, key, vetoed, p);
    case CallSubmit(project, other, assignments, eligible, vetoed) =>
      UntouchedBySubmit(db, project, other, assignments, eligible, vetoed, p);
    case _ => UntouchedByProductCall(db, call, p);
  }

  // ---------------------------------------------------------------- row versions

  /** The row changed, or a revision was added. */
  predicate Changed(db: Db, after: Db, p: Id)
    requires p in db.products && p in after.products
  {
    after.products[p] != db.products[p] || History(after, p) != History(db, p)
  }

  lemma VersionOfDecide(db: Db, actor: Id, project: Id, other: Id, kind: Kind, reason: string, key: string, vetoed: bool, p: Id)
    requires Schema(db) && p in db.products
    ensures var after := Decide(db, actor, project, other, kind, reason, key, vetoed).0;
            p in after.products && after.products[p].rowVersion == db.products[p].rowVersion + if Changed(db, after, p) then 1 else 0
  {
    if Decide(db, actor, project, other, kind, reason, key, vetoed).0 != db {
      DecideShape(db, actor, project, other, kind, reason, key, vetoed);
    }
  }

  /** The row version counts the changes of the product: one for each call that changes it. */
  lemma RowVersionCounts(db: Db, call: Call, p: Id)
    requires Schema(db) && p in db.products
    ensures var after := Step(db, call);
            p in after.products && after.products[p].rowVersion == db.products[p].rowVersion + if Changed(db, after, p) then 1 else 0
  {
    match call
    case CallDecide(actor, project, other, kind, reason, key, vetoed) =>
      VersionOfDecide(db, actor, project, other, kind, reason, key, vetoed, p);
    case _ =>
  }

  lemma {:induction false} VersionsGrow(db: Db, calls: seq<Call>, p: Id)
    requires Schema(db) && p in db.products
    ensures p in Run(db, calls).products && db.products[p].rowVersion <= Run(db, calls).products[p].rowVersion
    decreases |calls|
  {
    if calls != [] {
      RowVersionCounts(db, calls[0], p);
      VersionsGrow(Next(db, calls[0]), calls[1..], p);
    }
  }

  /** Optimistic locking: once a revision is accepted for a row version, no later revision, of a specification or not,
      and no retirement is accepted for the same version, whatever happened in between. */
  lemma VersionUsedOnce(db: Db, call: Call, calls: seq<Call>, actor: Id, hash: string, vetoed: bool)
    requires Schema(db) && (call.CallRevise? || call.CallReviseSpecification?) && Answer(db, call).1.Revised?
    ensures var now := Run(Next(db, call), calls);
            && !Revise(now, actor, call.project, call.product, call.expected, hash, vetoed).1.Revised?
            && !ReviseSpecification(now, actor, call.project, call.product, call.expected, hash, true).1.Revised?
            && (call.product in now.products && now.products[call.product].status != Obsolete ==>
                  !Retire(now, call.project, call.product, call.expected, vetoed).1.Retired?)
  {
    RowVersionCounts(db, call, call.product);
    assert Next(db, call).products[call.product].rowVersion == call.expected + 1 by {
      assert |History(Next(db, call), call.product)| == |History(db, call.product)| + 1;
    }
    VersionsGrow(Next(db, call), calls, call.product);
  }
}
