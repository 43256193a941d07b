/**
 What can be reached. Any draft can be approved by two people who did not write it, and any valid manifest can be put into
 effect; from these come concrete runs that reach the states in which the code breaks a promise.
 */
module Scenarios {
  import opened Wrappers
  import opened Review
  import opened ReviewSafety
  import opened ReviewRuns
  import opened ReviewExact
  import opened ReviewDrift
  import opened Plan

  // ---------------------------------------------------------------- composing runs

  lemma {:induction false} RunConcat(db: Db, calls: seq<Call>, more: seq<Call>)
    requires Schema(db)
    ensures Run(db, calls + more) == Run(Run(db, calls), more)
    decreases |calls|
  {
    if calls == [] {
      assert calls + more == more;
    } else {
      assert (calls + more)[1..] == calls[1..] + more;
      RunConcat(Next(db, calls[0]), calls[1..], more);
    }
  }

  lemma RunOnce(db: Db, call: Call)
    requires Schema(db)
    ensures Run(db, [call]) == Step(db, call)
  {
    assert [call][1..] == [];
  }

  // ---------------------------------------------------------------- every draft can be approved

  function Proposal(reviewer: Id, approver: Id): seq<Assignment> {
    [Assignment(reviewer, Reviewer), Assignment(approver, Approver)]
  }

  function SubmitCall(project: Id, p: Id, reviewer: Id, approver: Id): Call {
    CallSubmit(project, p, Proposal(reviewer, approver), {Assignment(reviewer, Reviewer), Assignment(approver, Approver)}, false)
  }

  function DecideCall(project: Id, p: Id, actor: Id, kind: Kind): Call {
    CallDecide(actor, project, p, kind, "", "", false)
  }

  function ApprovalCalls(project: Id, p: Id, reviewer: Id, approver: Id): seq<Call> {
    [SubmitCall(project, p, reviewer, approver)] + [DecideCall(project, p, reviewer, ReviewKind)] + [DecideCall(project, p, approver, Approval)]
  }

  /** An open request of p for its latest revision, with a reviewer and an approver who did not write it, and no decision yet. */
  ghost predicate UnderReview(db: Db, p: Id, q: Id, reviewer: Id, approver: Id) {
    && p in db.products && db.products[p].status == InReview
    && IsOpen(db, q, p) && db.requests[q].revision == Latest(db, p) && KnownRevision(db, Latest(db, p))
    && reviewer != AuthorOf(db, Latest(db, p)) && approver != AuthorOf(db, Latest(db, p))
    && Assigned(q, reviewer, Reviewer) in db.assignees && Assigned(q, approver, Approver) in db.assignees
  }

  ghost predicate Undecided(db: Db, q: Id, kind: Kind) {
    forall i | 0 <= i < |db.decisions| :: !(db.decisions[i].request == q && db.decisions[i].kind == kind)
  }

  lemma DraftCanBeSubmitted(db: Db, p: Id, reviewer: Id, approver: Id) returns (q: Id)
    requires ReviewInvariant(db) && p in db.products && db.products[p].status == Draft
    requires reviewer != AuthorOf(db, Latest(db, p)) && approver != AuthorOf(db, Latest(db, p))
    ensures var after := Step(db, SubmitCall(db.products[p].project, p, reviewer, approver));
            && UnderReview(after, p, q, reviewer, approver) && after.decisions == db.decisions
            && Undecided(after, q, ReviewKind) && Undecided(after, q, Approval) && History(after, p) == History(db, p)
            && after.products[p].project == db.products[p].project
  {
    var CallSubmit(project, _, assignments, eligible, _) := SubmitCall(db.products[p].project, p, reviewer, approver);
    assert assignments[0] == Assignment(reviewer, Reviewer) && assignments[1] == Assignment(approver, Approver);
    SubmitAcceptsExactly(db, project, p, assignments, eligible, false);
    var (after, reply) := Submit(db, project, p, assignments, eligible, false);
    q := reply.request;
    SubmitAssignsExactly(db, project, p, assignments, eligible, false, Assigned(q, reviewer, Reviewer));
    SubmitAssignsExactly(db, project, p, assignments, eligible, false, Assigned(q, approver, Approver));
  }

  lemma RequestCanBeReviewed(db: Db, p: Id, q: Id, reviewer: Id, approver: Id)
    requires ReviewInvariant(db) && UnderReview(db, p, q, reviewer, approver)
    requires Undecided(db, q, ReviewKind) && Undecided(db, q, Approval)
    ensures var after := Step(db, DecideCall(db.products[p].project, p, reviewer, ReviewKind));
            && UnderReview(after, p, q, reviewer, approver) && HasPositiveReview(after.decisions, q) && Undecided(after, q, Approval)
            && History(after, p) == History(db, p) && after.products[p] == db.products[p]
  {
    assert TheOpen(db, p) == q;
    DecideAcceptsExactly(db, reviewer, db.products[p].project, p, ReviewKind, "", "", false);
    var after := Step(db, DecideCall(db.products[p].project, p, reviewer, ReviewKind));
    assert IsPositiveReview(after.decisions[|db.decisions|], q);
  }

  lemma ReviewedCanBeApproved(db: Db, p: Id, q: Id, reviewer: Id, approver: Id)
    requires ReviewInvariant(db) && UnderReview(db, p, q, reviewer, approver)
    requires HasPositiveReview(db.decisions, q) && Undecided(db, q, Approval)
    ensures var after := Step(db, DecideCall(db.products[p].project, p, approver, Approval));
            && p in after.products && after.products[p].status == Approved && after.products[p].project == db.products[p].project
            && History(after, p) == History(db, p) && RevisionApproved(after, Latest(after, p))
  {
    assert TheOpen(db, p) == q;
    DecideAcceptsExactly(db, approver, db.products[p].project, p, Approval, "", "", false);
    var after := Step(db, DecideCall(db.products[p].project, p, approver, Approval));
    var d := after.decisions[|db.decisions|];
    assert d.kind == Approval && d.outcome == Positive && after.requests[d.request].revision == Latest(after, p);
  }

  /** The product is approved with the revisions it had as a draft, and may be put into effect if it is a plan. */
  ghost predicate NowApproved(db: Db, after: Db, p: Id)
    requires p in db.products
  {
    && ReviewInvariant(after) && p in after.products && after.products[p].status == Approved
    && after.products[p].project == db.products[p].project && after.products[p].productType == db.products[p].productType
    && History(after, p) == History(db, p) && RevisionApproved(after, Latest(after, p))
  }

  lemma ThreeCalls(db: Db, a: Call, b: Call, c: Call)
    requires Schema(db)
    ensures Schema(Step(db, a)) && Schema(Step(Step(db, a), b))
    ensures Run(db, [a] + [b] + [c]) == Step(Step(Step(db, a), b), c)
  {
    StepSchema(db, a);
    StepSchema(Step(db, a), b);
    RunOnce(db, a);
    RunAppend(db, [a], b);
    RunAppend(db, [a] + [b], c);
  }

  /** Any two people who did not write the latest revision of a draft can approve it between them. */
  lemma DraftCanBeApproved(db: Db, p: Id, reviewer: Id, approver: Id)
    requires ReviewInvariant(db) && p in db.products && db.products[p].status == Draft
    requires reviewer != AuthorOf(db, Latest(db, p)) && approver != AuthorOf(db, Latest(db, p))
    ensures NowApproved(db, Run(db, ApprovalCalls(db.products[p].project, p, reviewer, approver)), p)
  {
    var project := db.products[p].project;
    var a, b, c := SubmitCall(project, p, reviewer, approver), DecideCall(project, p, reviewer, ReviewKind), DecideCall(project, p, approver, Approval);
    ThreeCalls(db, a, b, c);
    var submitted := Step(db, a);
    StepKeeps(db, a);
    var q := DraftCanBeSubmitted(db, p, reviewer, approver);
    RequestCanBeReviewed(submitted, p, q, reviewer, approver);
    StepKeeps(submitted, b);
    ReviewedCanBeApproved(Step(submitted, b), p, q, reviewer, approver);
    StepKeeps(Step(submitted, b), c);
    RunGrows(db, ApprovalCalls(project, p, reviewer, approver));
  }

  lemma UntouchedTransitive(a: Db, b: Db, c: Db, p: Id)
    requires p in a.products && Untouched(a, b, p) && Untouched(b, c, p)
    ensures Untouched(a, c, p)
  {
  }

  /** Only the product itself is touched. */
  lemma {:induction false} OthersUntouchedByAll(db: Db, calls: seq<Call>, p: Id)
    requires Schema(db) && p in db.products && forall i | 0 <= i < |calls| :: ProductOf(calls[i]) != Some(p)
    ensures Untouched(db, Run(db, calls), p)
    decreases |calls|
  {
    if calls != [] {
      OthersUntouched(db, calls[0], p);
      OthersUntouchedByAll(Next(db, calls[0]), calls[1..], p);
      UntouchedTransitive(db, Next(db, calls[0]), Run(db, calls), p);
    }
  }

  // ---------------------------------------------------------------- runs that end in drift or retirement

  const NewSpecification: Call := CallCreate(1, 0, "S", "t", SpecificationType, "h")

  /** The specification 0 by author 1, alone in the tables. */
  lemma SpecificationCreated()
    ensures var db := Run(Start(), [NewSpecification]);
            && ReviewInvariant(db) && 0 in db.products && db.products[0] == WorkProduct(0, "S", SpecificationType, Draft, 1)
            && AuthorOf(db, Latest(db, 0)) == 1 && db.decisions == []
  {
    RunOnce(Start(), NewSpecification);
    RunKeeps(Start(), [NewSpecification]);
  }

  function ReviseCall(db: Db, p: Id, actor: Id): Call
    requires p in db.products
  {
    CallReviseSpecification(actor, db.products[p].project, p, db.products[p].rowVersion, "g", true)
  }

  /** Anybody can revise a specification that is not obsolete; outside draft it drifts and keeps its status. */
  lemma SpecificationDrifts(db: Db, p: Id, actor: Id)
    requires Schema(db) && p in db.products && db.products[p].productType == SpecificationType
    requires db.products[p].status in {InReview, Approved}
    ensures var after := Step(db, ReviseCall(db, p, actor));
            && RevisesOutside(db, ReviseCall(db, p, actor), p)
            && p in after.products && after.products[p].status == db.products[p].status && Drifted(after, p)
            && AuthorOf(after, Latest(after, p)) == actor && after.products[p].project == db.products[p].project
            && after.decisions == db.decisions
  {
    AppendedDrifts(db, p, Revision("g", actor));
  }

  /** The state after calls, then one more. */
  lemma OneMore(calls: seq<Call>, call: Call)
    ensures Run(Start(), calls + [call]) == Step(Run(Start(), calls), call)
    ensures ReviewInvariant(Run(Start(), calls)) && ReviewInvariant(Run(Start(), calls + [call]))
  {
    RunAppend(Start(), calls, call);
    RunKeeps(Start(), calls);
    RunKeeps(Start(), calls + [call]);
  }

  /** The specification 0 in review, by reviewer 2 and approver 3, */
  lemma SpecificationSubmitted() returns (calls: seq<Call>, q: Id)
    ensures var db := Run(Start(), calls);
            && ReviewInvariant(db) && UnderReview(db, 0, q, 2, 3) && db.decisions == []
            && db.products[0].project == 0 && db.products[0].productType == SpecificationType
  {
    SpecificationCreated();
    calls := [NewSpecification] + [SubmitCall(0, 0, 2, 3)];
    OneMore([NewSpecification], SubmitCall(0, 0, 2, 3));
    q := DraftCanBeSubmitted(Run(Start(), [NewSpecification]), 0, 2, 3);
    RunGrows(Run(Start(), [NewSpecification]), [SubmitCall(0, 0, 2, 3)]);
    RunOnce(Run(Start(), [NewSpecification]), SubmitCall(0, 0, 2, 3));
  }

  /** and the same approved. */
  lemma SpecificationApproved() returns (calls: seq<Call>)
    ensures var db := Run(Start(), calls);
            0 in db.products && db.products[0].productType == SpecificationType && db.products[0].status == Approved
  {
    SpecificationCreated();
    calls := [NewSpecification] + ApprovalCalls(0, 0, 2, 3);
    RunConcat(Start(), [NewSpecification], ApprovalCalls(0, 0, 2, 3));
    DraftCanBeApproved(Run(Start(), [NewSpecification]), 0, 2, 3);
  }

  /** A run after which a product is in review although its open request is not for its latest revision. */
  lemma ReviewOfAnOlderRevision() returns (calls: seq<Call>)
    ensures var db := Run(Start(), calls);
            && 0 in db.products && db.products[0].status == InReview && HasOpen(db, 0)
            && db.requests[TheOpen(db, 0)].revision != Latest(db, 0)
  {
    var before, q := SpecificationSubmitted();
    var db := Run(Start(), before);
    calls := before + [ReviseCall(db, 0, 4)];
    OneMore(before, ReviseCall(db, 0, 4));
    SpecificationDrifts(db, 0, 4);
    var after := Run(Start(), calls);
    assert IsOpen(after, TheOpen(after, 0), 0);
  }

  /** A run after which a product is approved although no decision was ever taken about its latest revision. */
  lemma ApprovedWithoutApproval() returns (calls: seq<Call>)
    ensures var db := Run(Start(), calls);
            && 0 in db.products && db.products[0].status == Approved
            && (forall i | 0 <= i < |db.decisions| :: db.decisions[i].revision != Latest(db, 0))
            && !Certified(db, Latest(db, 0))
  {
    var before := SpecificationApproved();
    var db := Run(Start(), before);
    calls := before + [ReviseCall(db, 0, 4)];
    OneMore(before, ReviseCall(db, 0, 4));
    SpecificationDrifts(db, 0, 4);
    DriftedHasNoDecision(Run(Start(), calls), 0);
  }

  function RetireCall(db: Db, p: Id): Call
    requires p in db.products
  {
    CallRetire(db.products[p].project, p, db.products[p].rowVersion, false)
  }

  /** The product has this status, and its retirement is accepted and makes it obsolete. */
  ghost predicate CanRetire(db: Db, p: Id, status: Status)
    requires Schema(db)
  {
    && p in db.products && db.products[p].status == status && Answer(db, RetireCall(db, p)).1.Retired?
    && p in Step(db, RetireCall(db, p)).products && Step(db, RetireCall(db, p)).products[p].status == Obsolete
  }

  lemma RetirementGoes(db: Db, p: Id)
    requires Schema(db) && p in db.products && db.products[p].productType != PlanType && db.products[p].status != Obsolete
    ensures CanRetire(db, p, db.products[p].status)
  {
  }

  /** Runs after which a product in review can be retired, */
  lemma RetiredInReview() returns (calls: seq<Call>)
    ensures CanRetire(Run(Start(), calls), 0, InReview)
  {
    var q;
    calls, q := SpecificationSubmitted();
    RetirementGoes(Run(Start(), calls), 0);
  }

  /** and an approved one. */
  lemma RetiredWhenApproved() returns (calls: seq<Call>)
    ensures CanRetire(Run(Start(), calls), 0, Approved)
  {
    calls := SpecificationApproved();
    RetirementGoes(Run(Start(), calls), 0);
  }

  const KeyedReview: Call := CallDecide(2, 0, 0, ReviewKind, "", "k", false)

  lemma KeyedReviewIsTaken(db: Db, q: Id)
    requires ReviewInvariant(db) && UnderReview(db, 0, q, 2, 3) && db.decisions == [] && db.products[0].project == 0
    ensures FindKey(db.decisions, "k").None? && Answer(db, KeyedReview).1.Decided?
    ensures Answer(db, KeyedReview).1.decision.revision == Latest(db, 0)
    ensures History(Step(db, KeyedReview), 0) == History(db, 0) && Step(db, KeyedReview).products == db.products
  {
    assert TheOpen(db, 0) == q;
    DecideAcceptsExactly(db, 2, 0, 0, ReviewKind, "", "k", false);
  }

  /** A run in which a decision is taken under a key and the specification then revised: the same call is now refused. */
  lemma KeyRefusedLater() returns (calls: seq<Call>)
    ensures var db := Run(Start(), calls);
            && Answer(db, KeyedReview).1.Decided?
            && 0 in Next(db, KeyedReview).products
            && var now := Run(Next(db, KeyedReview), [ReviseCall(Next(db, KeyedReview), 0, 4)]);
               Answer(now, KeyedReview) == (now, Refused(OperationConflict))
  {
    var q;
    calls, q := SpecificationSubmitted();
    var db := Run(Start(), calls);
    KeyedReviewIsTaken(db, q);
    var decided := Next(db, KeyedReview);
    RevisionIsNewer(decided, 0, 4);
    RunOnce(decided, ReviseCall(decided, 0, 4));
    ReplayAfterRun(db, KeyedReview, [ReviseCall(decided, 0, 4)], false);
  }

  lemma RevisionIsNewer(db: Db, p: Id, actor: Id)
    requires Schema(db) && p in db.products && db.products[p].productType == SpecificationType && db.products[p].status != Obsolete
    ensures Latest(Step(db, ReviseCall(db, p, actor)), p) == RevisionId(p, |History(db, p)| + 1)
  {
  }
}
