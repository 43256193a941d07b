/**
 What each change of the tables keeps: the constraints of the schema, growth, and the protocol -
 in review means one open request, pinned hashes are true, decisions are independent, approvals follow reviews.
 */
module ReviewSafety {
  import opened Wrappers
  import opened Review

  // ---------------------------------------------------------------- frames

  /** Openness depends on the requests alone. */
  lemma SameRequests(db: Db, after: Db)
    requires db.requests == after.requests
    ensures forall q, p :: IsOpen(db, q, p) <==> IsOpen(after, q, p)
    ensures forall p :: HasOpen(db, p) <==> HasOpen(after, p)
  {
    forall p ensures HasOpen(db, p) <==> HasOpen(after, p) {
      if HasOpen(db, p) { assert IsOpen(after, TheOpen(db, p), p); }
      if HasOpen(after, p) { assert IsOpen(db, TheOpen(after, p), p); }
    }
  }

  /** Superseding leaves the product without an open request and every other product as it was. */
  lemma SupersedeOpenness(db: Db, p: Id)
    ensures forall q, r :: IsOpen(SupersedeOpen(db, p), q, r) <==> IsOpen(db, q, r) && r != p
    ensures forall r :: HasOpen(SupersedeOpen(db, p), r) <==> HasOpen(db, r) && r != p
  {
    var after := SupersedeOpen(db, p);
    forall r ensures HasOpen(after, r) <==> HasOpen(db, r) && r != p {
      if HasOpen(db, r) && r != p { assert IsOpen(after, TheOpen(db, r), r); }
      if HasOpen(after, r) { assert IsOpen(db, TheOpen(after, r), r); }
    }
  }

  lemma KnownGrows(db: Db, after: Db, r: RevisionId)
    requires Grows(db, after) && KnownRevision(db, r)
    ensures KnownRevision(after, r) && RevisionOf(after, r) == RevisionOf(db, r)
  {
  }

  /** What was decided independently stays so while the tables grow. */
  lemma IndependentGrows(db: Db, after: Db, i: nat)
    requires Schema(db) && RequestsRefer(after) && DecisionsRefer(after) && Grows(db, after)
    requires Independent(db, i)
    ensures Independent(after, i)
  {
    KnownGrows(db, after, db.decisions[i].revision);
  }

  lemma DecisionsFrame(db: Db, after: Db)
    requires ReviewInvariant(db) && RequestsRefer(after) && DecisionsRefer(after) && Grows(db, after)
    requires after.decisions == db.decisions
    ensures DecidedIndependently(after)
  {
    forall i | 0 <= i < |after.decisions| ensures Independent(after, i) {
      IndependentGrows(db, after, i);
    }
  }

  lemma HashesFrame(db: Db, after: Db)
    requires ReviewInvariant(db) && RequestsRefer(after) && Grows(db, after)
    requires after.requests.Keys == db.requests.Keys
    ensures HashesPinned(after)
  {
    forall q | q in after.requests ensures after.requests[q].hash == RevisionOf(after, after.requests[q].revision).hash {
      KnownGrows(db, after, db.requests[q].revision);
    }
  }

  /** Closing or superseding requests keeps the closed ones that carry an approval. */
  ghost predicate ApprovedRequestsKept(db: Db, after: Db) {
    forall q | q in db.requests && db.requests[q].status == RequestApproved ::
      q in after.requests && after.requests[q].status == RequestApproved
  }

  lemma ApprovalsFrame(db: Db, after: Db)
    requires ReviewInvariant(db) && DecisionsRefer(after)
    requires after.decisions == db.decisions && ApprovedRequestsKept(db, after)
    ensures ApprovalsFollowReviews(after)
  {
  }

  /** The parts of the protocol that do not speak of openness survive every change that decides nothing. */
  lemma Frames(db: Db, after: Db)
    requires ReviewInvariant(db) && RequestsRefer(after) && DecisionsRefer(after) && Grows(db, after)
    requires after.decisions == db.decisions && after.requests.Keys == db.requests.Keys && ApprovedRequestsKept(db, after)
    ensures HashesPinned(after) && DecidedIndependently(after) && ApprovalsFollowReviews(after)
  {
    DecisionsFrame(db, after);
    HashesFrame(db, after);
    ApprovalsFrame(db, after);
  }

  // ---------------------------------------------------------------- a new product

  lemma InsertSchema(db: Db, actor: Id, project: Id, code: string, productType: ProductType, hash: string)
    requires Schema(db)
    ensures var after := Insert(db, actor, project, code, productType, hash); Schema(after) && Grows(db, after)
  {
    SameRequests(db, Insert(db, actor, project, code, productType, hash));
  }

  lemma InsertKeeps(db: Db, actor: Id, project: Id, code: string, productType: ProductType, hash: string)
    requires ReviewInvariant(db)
    ensures var after := Insert(db, actor, project, code, productType, hash); ReviewInvariant(after) && Grows(db, after)
  {
    var after := Insert(db, actor, project, code, productType, hash);
    SameRequests(db, after);
    InsertSchema(db, actor, project, code, productType, hash);
    Frames(db, after);
  }

  // ---------------------------------------------------------------- a new revision

  lemma AddRevisionOpenness(db: Db, p: Id, revision: Revision)
    requires p in db.products
    ensures var after := AddRevision(db, p, revision);
            && (forall q, r :: IsOpen(after, q, r) <==> IsOpen(db, q, r) && r != p)
            && (forall r :: HasOpen(after, r) <==> HasOpen(db, r) && r != p)
  {
    var middle := SetProduct(AppendRevision(db, p, revision), p, Draft);
    SameRequests(db, middle);
    SupersedeOpenness(middle, p);
  }

  lemma AddRevisionGrows(db: Db, p: Id, revision: Revision)
    requires p in db.products
    ensures Grows(db, AddRevision(db, p, revision))
  {
  }

  lemma AddRevisionSchema(db: Db, p: Id, revision: Revision)
    requires Schema(db) && p in db.products
    ensures Schema(AddRevision(db, p, revision))
  {
    AddRevisionOpenness(db, p, revision);
  }

  lemma AddRevisionStatus(db: Db, p: Id, revision: Revision)
    requires InReviewIffOpen(db) && p in db.products
    ensures InReviewIffOpen(AddRevision(db, p, revision))
  {
    AddRevisionOpenness(db, p, revision);
  }

  lemma AddRevisionKeeps(db: Db, p: Id, revision: Revision)
    requires ReviewInvariant(db) && p in db.products
    ensures ReviewInvariant(AddRevision(db, p, revision))
  {
    AddRevisionStatus(db, p, revision);
    AddRevisionSchema(db, p, revision);
    AddRevisionGrows(db, p, revision);
    Frames(db, AddRevision(db, p, revision));
  }

  // ---------------------------------------------------------------- retirement

  lemma RetirementOpenness(db: Db, p: Id)
    requires p in db.products
    ensures var after := Retirement(db, p);
            && (forall q, r :: IsOpen(after, q, r) <==> IsOpen(db, q, r) && r != p)
            && (forall r :: HasOpen(after, r) <==> HasOpen(db, r) && r != p)
  {
    var middle := SetProduct(db, p, Obsolete);
    SameRequests(db, middle);
    SupersedeOpenness(middle, p);
  }

  lemma RetirementGrows(db: Db, p: Id)
    requires p in db.products
    ensures Grows(db, Retirement(db, p))
  {
  }

  lemma RetirementSchema(db: Db, p: Id)
    requires Schema(db) && p in db.products
    ensures Schema(Retirement(db, p))
  {
    RetirementOpenness(db, p);
  }

  lemma RetirementKeeps(db: Db, p: Id)
    requires ReviewInvariant(db) && p in db.products
    ensures ReviewInvariant(Retirement(db, p))
  {
    RetirementOpenness(db, p);
    RetirementSchema(db, p);
    RetirementGrows(db, p);
    Frames(db, Retirement(db, p));
  }

  // ---------------------------------------------------------------- a row version alone

  lemma BumpSchema(db: Db, p: Id)
    requires Schema(db) && p in db.products
    ensures Schema(Bump(db, p)) && Grows(db, Bump(db, p))
  {
    SameRequests(db, Bump(db, p));
  }

  lemma BumpKeeps(db: Db, p: Id)
    requires ReviewInvariant(db) && p in db.products
    ensures ReviewInvariant(Bump(db, p))
  {
    SameRequests(db, Bump(db, p));
    BumpSchema(db, p);
    Frames(db, Bump(db, p));
  }

  // ---------------------------------------------------------------- a revision alone

  lemma AppendOnlySchema(db: Db, p: Id, revision: Revision)
    requires Schema(db) && p in db.products
    ensures Schema(AppendOnly(db, p, revision)) && Grows(db, AppendOnly(db, p, revision))
  {
    SameRequests(db, AppendOnly(db, p, revision));
  }

  lemma AppendOnlyKeeps(db: Db, p: Id, revision: Revision)
    requires ReviewInvariant(db) && p in db.products
    ensures ReviewInvariant(AppendOnly(db, p, revision))
  {
    SameRequests(db, AppendOnly(db, p, revision));
    AppendOnlySchema(db, p, revision);
    Frames(db, AppendOnly(db, p, revision));
  }

  // ---------------------------------------------------------------- submission

  lemma SubmissionOpenness(db: Db, project: Id, p: Id, assignments: seq<Assignment>)
    requires Schema(db) && p in db.products
    ensures var after := Submission(db, project, p, assignments);
            && (forall q, r :: IsOpen(after, q, r) <==> IsOpen(db, q, r) || (q == db.nextId && r == p))
            && (forall r :: HasOpen(after, r) <==> HasOpen(db, r) || r == p)
  {
    var after := Submission(db, project, p, assignments);
    forall r ensures HasOpen(after, r) <==> HasOpen(db, r) || r == p {
      if HasOpen(db, r) { assert IsOpen(after, TheOpen(db, r), r); }
      if HasOpen(after, r) && r != p { assert IsOpen(db, TheOpen(after, r), r); }
      assert IsOpen(after, db.nextId, p);
    }
  }

  lemma SubmissionGrows(db: Db, project: Id, p: Id, assignments: seq<Assignment>)
    requires Schema(db) && p in db.products
    ensures Grows(db, Submission(db, project, p, assignments))
  {
  }

  lemma SubmissionSchema(db: Db, project: Id, p: Id, assignments: seq<Assignment>)
    requires Schema(db) && InProject(db, p, project) && !HasOpen(db, p)
    ensures Schema(Submission(db, project, p, assignments))
  {
    SubmissionOpenness(db, project, p, assignments);
  }

  lemma SubmissionHashes(db: Db, project: Id, p: Id, assignments: seq<Assignment>)
    requires ReviewInvariant(db) && InProject(db, p, project) && !HasOpen(db, p)
    requires RequestsRefer(Submission(db, project, p, assignments))
    ensures HashesPinned(Submission(db, project, p, assignments))
  {
  }

  lemma SubmissionStatus(db: Db, project: Id, p: Id, assignments: seq<Assignment>)
    requires Schema(db) && InReviewIffOpen(db) && p in db.products
    ensures InReviewIffOpen(Submission(db, project, p, assignments))
  {
    SubmissionOpenness(db, project, p, assignments);
  }

  lemma SubmissionDecisions(db: Db, project: Id, p: Id, assignments: seq<Assignment>)
    requires ReviewInvariant(db) && InProject(db, p, project) && !HasOpen(db, p)
    ensures var after := Submission(db, project, p, assignments);
            Schema(after) && HashesPinned(after) && DecidedIndependently(after) && ApprovalsFollowReviews(after)
  {
    var after := Submission(db, project, p, assignments);
    SubmissionSchema(db, project, p, assignments);
    SubmissionGrows(db, project, p, assignments);
    SubmissionHashes(db, project, p, assignments);
    DecisionsFrame(db, after);
    ApprovalsFrame(db, after);
  }

  lemma SubmissionKeeps(db: Db, project: Id, p: Id, assignments: seq<Assignment>)
    requires ReviewInvariant(db) && InProject(db, p, project) && !HasOpen(db, p)
    ensures ReviewInvariant(Submission(db, project, p, assignments))
  {
    SubmissionStatus(db, project, p, assignments);
    SubmissionDecisions(db, project, p, assignments);
  }

  // ---------------------------------------------------------------- a decision

  lemma RecordOpenness(db: Db, d: Decision)
    ensures forall q, p :: IsOpen(Record(db, d), q, p) <==> IsOpen(db, q, p)
    ensures forall p :: HasOpen(Record(db, d), p) <==> HasOpen(db, p)
  {
    SameRequests(db, Record(db, d));
  }

  /** What a decision must satisfy to be recorded on an open request. */
  ghost predicate Admissible(db: Db, q: Id, d: Decision)
    requires RequestsRefer(db)
  {
    && q in db.requests
    && d.request == q && d.revision == db.requests[q].revision && d.hash == db.requests[q].hash
    && AssignedFor(db, q, d.decider, d.kind)
    && d.decider != AuthorOf(db, d.revision)
    && d.outcome == OutcomeOf(d.kind)
    && !AlreadyDecided(db.decisions, q, d.decider, d.kind)
    && (d.key.Some? ==> forall i | 0 <= i < |db.decisions| :: db.decisions[i].key != d.key)
  }

  lemma RecordSchema(db: Db, q: Id, d: Decision)
    requires Schema(db) && Admissible(db, q, d)
    ensures Schema(Record(db, d)) && Grows(db, Record(db, d))
  {
    RecordOpenness(db, d);
  }

  lemma RecordIndependent(db: Db, q: Id, d: Decision)
    requires ReviewInvariant(db) && Admissible(db, q, d)
    requires Schema(Record(db, d)) && Grows(db, Record(db, d))
    ensures DecidedIndependently(Record(db, d)) && HashesPinned(Record(db, d))
  {
    var after := Record(db, d);
    forall i | 0 <= i < |after.decisions| ensures Independent(after, i) {
      if i < |db.decisions| { IndependentGrows(db, after, i); }
    }
  }

  /** An approval once found stays found when decisions are appended. */
  lemma ApprovalAppends(ds: seq<Decision>, more: seq<Decision>, i: nat, r: RevisionId)
    requires ReviewedApproval(ds, i, r)
    ensures ReviewedApproval(ds + more, i, r)
  {
    assert (ds + more)[..i] == ds[..i];
  }

  lemma HasApprovalAppends(ds: seq<Decision>, more: seq<Decision>, r: RevisionId)
    requires HasApproval(ds, r)
    ensures HasApproval(ds + more, r)
  {
    var i :| 0 <= i < |ds| && ReviewedApproval(ds, i, r);
    ApprovalAppends(ds, more, i, r);
  }

  lemma ClosingOpenness(db: Db, q: Id, status: RequestStatus, p: Id, target: Status)
    requires SingleOpen(db) && IsOpen(db, q, p) && p in db.products && status != Open
    ensures var after := Closing(db, q, status, p, target);
            && (forall k, r :: IsOpen(after, k, r) <==> IsOpen(db, k, r) && r != p)
            && (forall r :: HasOpen(after, r) <==> HasOpen(db, r) && r != p)
  {
    var after := Closing(db, q, status, p, target);
    forall k, r ensures IsOpen(after, k, r) <==> IsOpen(db, k, r) && r != p {
      if IsOpen(db, k, p) { assert k == q; }
    }
    forall r ensures HasOpen(after, r) <==> HasOpen(db, r) && r != p {
      if HasOpen(db, r) && r != p { assert IsOpen(after, TheOpen(db, r), r); }
      if HasOpen(after, r) { assert IsOpen(db, TheOpen(after, r), r); }
    }
  }

  lemma ClosingSchema(db: Db, q: Id, status: RequestStatus, p: Id, target: Status)
    requires Schema(db) && IsOpen(db, q, p) && p in db.products && status != Open
    ensures var after := Closing(db, q, status, p, target); Schema(after) && Grows(db, after)
  {
    ClosingOpenness(db, q, status, p, target);
  }

  lemma ClosingIndependent(db: Db, q: Id, status: RequestStatus, p: Id, target: Status)
    requires Schema(db) && HashesPinned(db) && DecidedIndependently(db) && IsOpen(db, q, p) && p in db.products && status != Open
    ensures var after := Closing(db, q, status, p, target);
            Schema(after) && HashesPinned(after) && DecidedIndependently(after)
  {
    var after := Closing(db, q, status, p, target);
    ClosingSchema(db, q, status, p, target);
    forall i | 0 <= i < |after.decisions| ensures Independent(after, i) {
      IndependentGrows(db, after, i);
    }
  }

  /** The last decision is the one just recorded; earlier approvals keep their closed requests. */
  lemma DecisionApprovals(db: Db, q: Id, p: Id, d: Decision)
    requires ReviewInvariant(db) && Admissible(db, q, d) && IsOpen(db, q, p) && p in db.products
    requires d.kind == Approval ==> HasPositiveReview(db.decisions, q)
    requires DecisionsRefer(Effect(Record(db, d), q, p, d.kind))
    ensures ApprovalsFollowReviews(Effect(Record(db, d), q, p, d.kind))
  {
    var after := Effect(Record(db, d), q, p, d.kind);
    forall i | 0 <= i < |after.decisions| && after.decisions[i].kind == Approval
      ensures ReviewedApproval(after.decisions, i, after.decisions[i].revision)
      ensures after.requests[after.decisions[i].request].status == RequestApproved
    {
      if i < |db.decisions| {
        ApprovalAppends(db.decisions, [d], i, db.decisions[i].revision);
      } else {
        assert after.decisions[..i] == db.decisions;
      }
    }
  }

  lemma DecisionOpenness(db: Db, q: Id, p: Id, d: Decision)
    requires Schema(db) && InReviewIffOpen(db) && IsOpen(db, q, p) && p in db.products
    ensures InReviewIffOpen(Effect(Record(db, d), q, p, d.kind))
  {
    RecordOpenness(db, d);
    if d.kind != ReviewKind {
      ClosingOpenness(Record(db, d), q, if d.kind == Approval then RequestApproved else ChangesRequested, p,
                      if d.kind == Approval then Approved else Draft);
    }
  }

  /** A decision keeps the constraints of the schema, whatever state the protocol is in. */
  lemma DecisionSchema(db: Db, q: Id, p: Id, d: Decision)
    requires Schema(db) && Admissible(db, q, d) && IsOpen(db, q, p) && p in db.products
    ensures var after := Effect(Record(db, d), q, p, d.kind); Schema(after) && Grows(db, after)
  {
    var middle := Record(db, d);
    RecordOpenness(db, d);
    RecordSchema(db, q, d);
    if d.kind != ReviewKind {
      ClosingSchema(middle, q, if d.kind == Approval then RequestApproved else ChangesRequested, p,
                    if d.kind == Approval then Approved else Draft);
    }
  }

  lemma DecisionKeeps(db: Db, q: Id, p: Id, d: Decision)
    requires ReviewInvariant(db) && Admissible(db, q, d) && IsOpen(db, q, p) && p in db.products
    requires d.kind == Approval ==> HasPositiveReview(db.decisions, q)
    ensures var after := Effect(Record(db, d), q, p, d.kind); ReviewInvariant(after) && Grows(db, after)
  {
    var middle := Record(db, d);
    RecordOpenness(db, d);
    RecordSchema(db, q, d);
    RecordIndependent(db, q, d);
    DecisionOpenness(db, q, p, d);
    if d.kind != ReviewKind {
      var status := if d.kind == Approval then RequestApproved else ChangesRequested;
      var target := if d.kind == Approval then Approved else Draft;
      ClosingSchema(middle, q, status, p, target);
      ClosingIndependent(middle, q, status, p, target);
    }
    DecisionApprovals(db, q, p, d);
  }
}
