/**
 Which revision of a product the review protocol vouches for. The call that revises a specification changes neither the
 status nor the open request, so outside draft it leaves a product whose latest revision nobody was asked about. Such a
 product has drifted, until it is a draft again. In every run the latest revision of an approved product is certified
 exactly when the product has not drifted.
 */
module ReviewDrift {
  import opened Wrappers
  import opened Review
  import opened ReviewSafety
  import opened ReviewRuns
  import opened ReviewExact

  /** The call adds a revision to the specification p, which is no draft. */
  ghost predicate RevisesOutside(db: Db, call: Call, p: Id)
    requires Schema(db)
  {
    && call.CallReviseSpecification? && call.product == p && Answer(db, call).1.Revised?
    && p in db.products && db.products[p].status != Draft
  }

  /** The products that have drifted after the call. */
  ghost function Drift(db: Db, drifted: set<Id>, call: Call): set<Id>
    requires Schema(db)
  {
    var after := Step(db, call);
    set p | p in after.products && after.products[p].status != Draft && (p in drifted || RevisesOutside(db, call, p))
  }

  ghost function DriftOf(db: Db, drifted: set<Id>, calls: seq<Call>): set<Id>
    requires Schema(db)
    decreases |calls|
  {
    if calls == [] then drifted else DriftOf(Next(db, calls[0]), Drift(db, drifted, calls[0]), calls[1..])
  }

  // ---------------------------------------------------------------- one product, one change

  /** What the drifted set says of p is true of the tables. */
  ghost predicate TrackedAt(db: Db, drifted: set<Id>, p: Id) {
    if p in drifted then Drifted(db, p) else Current(db, p)
  }

  lemma TrackedEverywhere(db: Db, drifted: set<Id>)
    requires forall p | p in db.products :: TrackedAt(db, drifted, p)
    requires forall p | p in drifted :: p in db.products
    ensures Tracked(db, drifted)
  {
    forall p | p in drifted ensures Drifted(db, p) { assert TrackedAt(db, drifted, p); }
    forall p | p in db.products && p !in drifted ensures Current(db, p) { assert TrackedAt(db, drifted, p); }
  }

  lemma UntouchedStaysCurrent(db: Db, after: Db, p: Id)
    requires p in db.products && Untouched(db, after, p) && db.decisions <= after.decisions
    ensures Current(db, p) ==> Current(after, p)
    ensures Drifted(db, p) ==> Drifted(after, p)
  {
    if Current(db, p) && db.products[p].status == Approved {
      HasApprovalAppends(db.decisions, after.decisions[|db.decisions|..], Latest(db, p));
      assert db.decisions + after.decisions[|db.decisions|..] == after.decisions;
    }
  }

  /** A product without open request that is not approved is current. */
  lemma IdleIsCurrent(db: Db, p: Id)
    requires !HasOpen(db, p) && (p in db.products ==> db.products[p].status != Approved)
    ensures Current(db, p)
  {
    forall q | q in db.requests && IsOpen(db, q, p) ensures false {
      assert HasOpen(db, p);
    }
  }

  lemma DraftIsCurrent(db: Db, p: Id)
    requires InReviewIffOpen(db) && p in db.products && db.products[p].status == Draft
    ensures Current(db, p)
  {
    IdleIsCurrent(db, p);
  }

  lemma AppendedDrifts(db: Db, p: Id, revision: Revision)
    requires Schema(db) && p in db.products && db.products[p].status != Draft
    ensures Drifted(AppendOnly(db, p, revision), p)
  {
  }

  lemma SubmittedIsCurrent(db: Db, project: Id, p: Id, assignments: seq<Assignment>)
    requires Schema(db) && p in db.products && !HasOpen(db, p)
    ensures Current(Submission(db, project, p, assignments), p)
  {
    SubmissionOpenness(db, project, p, assignments);
    forall q | q in db.requests ensures !IsOpen(db, q, p) {
      assert IsOpen(db, q, p) ==> HasOpen(db, p);
    }
  }

  /** Recording a decision and its effect keep the pins, so a drifted product stays drifted, unless it is sent back to draft. */
  lemma DecidedStaysDrifted(db: Db, q: Id, p: Id, d: Decision)
    requires Schema(db) && IsOpen(db, q, p) && p in db.products && Drifted(db, p) && d.kind != RequestChanges
    ensures Drifted(Effect(Record(db, d), q, p, d.kind), p)
  {
  }

  lemma ApprovedIsCurrent(db: Db, q: Id, p: Id, d: Decision)
    requires Schema(db) && IsOpen(db, q, p) && p in db.products && Current(db, p)
    requires d.request == q && d.revision == db.requests[q].revision && d.kind == Approval && HasPositiveReview(db.decisions, q)
    ensures Current(Effect(Record(db, d), q, p, Approval), p)
  {
    var after := Effect(Record(db, d), q, p, Approval);
    RecordOpenness(db, d);
    ClosingOpenness(Record(db, d), q, RequestApproved, p, Approved);
    assert after.decisions[..|db.decisions|] == db.decisions;
    assert ReviewedApproval(after.decisions, |db.decisions|, Latest(after, p));
  }

  // ---------------------------------------------------------------- the product of a call

  lemma TrackedDecide(db: Db, drifted: set<Id>, call: Call)
    requires ReviewInvariant(db) && Tracked(db, drifted) && call.CallDecide? && Step(db, call) != db
    ensures call.product in db.products && TrackedAt(Step(db, call), Drift(db, drifted, call), call.product)
  {
    var CallDecide(actor, project, p, kind, reason, key, vetoed) := call;
    DecideShape(db, actor, project, p, kind, reason, key, vetoed);
    var q := TheOpen(db, p);
    var d := NewDecision(db, q, actor, kind, reason, key);
    RefusedNotAdmissible(db, q, actor, kind, reason, key, vetoed);
    StepKeeps(db, call);
    var after := Effect(Record(db, d), q, p, kind);
    if kind == RequestChanges {
      DraftIsCurrent(after, p);
    } else if p in drifted {
      DecidedStaysDrifted(db, q, p, d);
    } else if kind == Approval {
      ApprovedIsCurrent(db, q, p, d);
    } else {
      ReviewedIsCurrent(db, p, d);
    }
    TrackedByEffect(after, p, p in drifted, p in Drift(db, drifted, call));
  }

  /** The drifted set goes by the status and by what was in it before. */
  lemma TrackedByEffect(after: Db, p: Id, before: bool, now: bool)
    requires p in after.products && (now <==> after.products[p].status != Draft && before)
    requires after.products[p].status == Draft ==> Current(after, p)
    requires after.products[p].status != Draft ==> if before then Drifted(after, p) else Current(after, p)
    ensures if now then Drifted(after, p) else Current(after, p)
  {
  }

  lemma ReviewedIsCurrent(db: Db, p: Id, d: Decision)
    requires p in db.products && Current(db, p)
    ensures Current(Record(db, d), p)
  {
    RecordOpenness(db, d);
    if db.products[p].status == Approved { HasApprovalAppends(db.decisions, [d], Latest(db, p)); }
  }

  lemma TrackedSubmit(db: Db, drifted: set<Id>, call: Call)
    requires ReviewInvariant(db) && Tracked(db, drifted) && call.CallSubmit? && Step(db, call) != db
    ensures call.product in db.products && TrackedAt(Step(db, call), Drift(db, drifted, call), call.product)
  {
    SubmittedIsCurrent(db, call.project, call.product, call.assignments);
  }

  lemma TrackedRetire(db: Db, drifted: set<Id>, call: Call)
    requires ReviewInvariant(db) && Tracked(db, drifted) && call.CallRetire? && Step(db, call) != db
    ensures call.product in db.products && TrackedAt(Step(db, call), Drift(db, drifted, call), call.product)
  {
    RetirementOpenness(db, call.product);
    IdleIsCurrent(Step(db, call), call.product);
  }

  lemma TrackedRevise(db: Db, drifted: set<Id>, call: Call)
    requires ReviewInvariant(db) && Tracked(db, drifted) && call.CallRevise? && Step(db, call) != db
    ensures call.product in db.products && TrackedAt(Step(db, call), Drift(db, drifted, call), call.product)
  {
    StepKeeps(db, call);
    DraftIsCurrent(Step(db, call), call.product);
  }

  lemma TrackedSpecification(db: Db, drifted: set<Id>, call: Call)
    requires ReviewInvariant(db) && call.CallReviseSpecification? && Step(db, call) != db
    ensures call.product in db.products && TrackedAt(Step(db, call), Drift(db, drifted, call), call.product)
  {
    var p := call.product;
    if db.products[p].status == Draft {
      StepKeeps(db, call);
      DraftIsCurrent(Step(db, call), p);
    } else {
      AppendedDrifts(db, p, Revision(call.hash, call.actor));
    }
  }

  lemma TrackedBump(db: Db, drifted: set<Id>, p: Id)
    requires Tracked(db, drifted) && p in db.products
    ensures if p in drifted then Drifted(Bump(db, p), p) else Current(Bump(db, p), p)
  {
  }

  // ---------------------------------------------------------------- every call

  lemma TrackedOwn(db: Db, drifted: set<Id>, call: Call)
    requires ReviewInvariant(db) && Tracked(db, drifted) && Step(db, call) != db && ProductOf(call).Some?
    ensures ProductOf(call).value in db.products && TrackedAt(Step(db, call), Drift(db, drifted, call), ProductOf(call).value)
  {
    match call
    case CallRevise(_, _, _, _, _, _) => TrackedRevise(db, drifted, call);
    case CallReviseSpecification(_, _, _, _, _, _) => TrackedSpecification(db, drifted, call);
    case CallSubmit(_, _, _, _, _) => TrackedSubmit(db, drifted, call);
    case CallDecide(_, _, _, _, _, _, _) => TrackedDecide(db, drifted, call);
    case CallRetire(_, _, _, _) => TrackedRetire(db, drifted, call);
    case CallApplyPlan(p) => TrackedBump(db, drifted, p);
  }

  lemma TrackedOther(db: Db, drifted: set<Id>, call: Call, p: Id)
    requires ReviewInvariant(db) && Tracked(db, drifted) && p in db.products && ProductOf(call) != Some(p)
    ensures p in Step(db, call).products && TrackedAt(Step(db, call), Drift(db, drifted, call), p)
  {
    OthersUntouched(db, call, p);
    StepSchema(db, call);
    UntouchedStaysCurrent(db, Step(db, call), p);
  }

  lemma TrackedNew(db: Db, drifted: set<Id>, call: Call, p: Id)
    requires ReviewInvariant(db) && Tracked(db, drifted) && p in Step(db, call).products && p !in db.products
    ensures TrackedAt(Step(db, call), Drift(db, drifted, call), p)
  {
    StepKeeps(db, call);
    NewIsDraft(db, call, p);
    DraftIsCurrent(Step(db, call), p);
  }

  lemma NewIsDraft(db: Db, call: Call, p: Id)
    requires Schema(db) && p in Step(db, call).products && p !in db.products
    ensures Step(db, call).products[p].status == Draft
  {
    match call
    case CallDecide(actor, project, other, kind, reason, key, vetoed) =>
      if Step(db, call) != db { DecideShape(db, actor, project, other, kind, reason, key, vetoed); }
    case _ =>
  }

  lemma DriftedStays(db: Db, drifted: set<Id>, call: Call)
    requires Schema(db) && Step(db, call) == db && Tracked(db, drifted)
    ensures Tracked(db, Drift(db, drifted, call))
  {
    RefusedUnchanged(db, call);
    assert forall p | p in db.products :: p in Drift(db, drifted, call) <==> p in drifted;
  }

  /** An accepted specification revision adds a revision, so it changes the tables. */
  lemma RefusedUnchanged(db: Db, call: Call)
    requires Schema(db) && Step(db, call) == db
    ensures forall p :: !RevisesOutside(db, call, p)
  {
    if call.CallReviseSpecification? && Answer(db, call).1.Revised? { AcceptedChanges(db, call); }
  }

  lemma AcceptedChanges(db: Db, call: Call)
    requires Schema(db) && call.CallReviseSpecification? && Answer(db, call).1.Revised?
    ensures Step(db, call) != db
  {
    assert |History(Step(db, call), call.product)| == |History(db, call.product)| + 1;
  }

  /** Every call, accepted or refused, keeps the drifted products apart from the current ones. */
  lemma TrackedStep(db: Db, drifted: set<Id>, call: Call)
    requires ReviewInvariant(db) && Tracked(db, drifted)
    ensures Tracked(Step(db, call), Drift(db, drifted, call))
  {
    var after := Step(db, call);
    if after == db {
      DriftedStays(db, drifted, call);
    } else {
      forall p | p in after.products ensures TrackedAt(after, Drift(db, drifted, call), p) {
        if p !in db.products { TrackedNew(db, drifted, call, p); }
        else if ProductOf(call) == Some(p) { TrackedOwn(db, drifted, call); }
        else { TrackedOther(db, drifted, call, p); }
      }
      TrackedEverywhere(after, Drift(db, drifted, call));
    }
  }

  lemma {:induction false} TrackedRun(db: Db, drifted: set<Id>, calls: seq<Call>)
    requires ReviewInvariant(db) && Tracked(db, drifted)
    ensures ReviewInvariant(Run(db, calls)) && Tracked(Run(db, calls), DriftOf(db, drifted, calls))
    decreases |calls|
  {
    if calls != [] {
      StepKeeps(db, calls[0]);
      TrackedStep(db, drifted, calls[0]);
      TrackedRun(Next(db, calls[0]), Drift(db, drifted, calls[0]), calls[1..]);
    }
  }

  // ---------------------------------------------------------------- what a reader gets

  /** Whether the latest revision of an approved product is certified depends on drift alone. */
  lemma CertifiedExactly(db: Db, drifted: set<Id>, p: Id)
    requires ReviewInvariant(db) && Tracked(db, drifted) && p in db.products && db.products[p].status == Approved
    ensures Certified(db, Latest(db, p)) <==> p !in drifted
  {
    if p !in drifted {
      var i :| 0 <= i < |db.decisions| && ReviewedApproval(db.decisions, i, Latest(db, p));
      ApprovalCertifies(db, i);
    } else {
      DriftedHasNoDecision(db, p);
    }
  }

  lemma DriftedHasNoDecision(db: Db, p: Id)
    requires Schema(db) && Drifted(db, p)
    ensures forall i | 0 <= i < |db.decisions| :: db.decisions[i].revision != Latest(db, p)
  {
  }

  /** In every reachable state: in review means exactly one open request, with the hash of the revision it pins;
      and that revision is the latest exactly if the product has not drifted. */
  lemma ReachableInReview(calls: seq<Call>, p: Id)
    requires p in Run(Start(), calls).products
    ensures var db, drifted := Run(Start(), calls), DriftOf(Start(), {}, calls);
            && (db.products[p].status == InReview <==> HasOpen(db, p))
            && (HasOpen(db, p) ==>
                  var q := TheOpen(db, p);
                  && (forall k :: IsOpen(db, k, p) ==> k == q)
                  && KnownRevision(db, db.requests[q].revision)
                  && db.requests[q].hash == RevisionOf(db, db.requests[q].revision).hash
                  && (db.requests[q].revision == Latest(db, p) <==> p !in drifted))
  {
    TrackedRun(Start(), {}, calls);
  }

  /** In every reachable state the latest revision of an approved product is certified exactly if it has not drifted. */
  lemma ReachableApproved(calls: seq<Call>, p: Id)
    requires p in Run(Start(), calls).products && Run(Start(), calls).products[p].status == Approved
    ensures Certified(Run(Start(), calls), Latest(Run(Start(), calls), p)) <==> p !in DriftOf(Start(), {}, calls)
  {
    TrackedRun(Start(), {}, calls);
    CertifiedExactly(Run(Start(), calls), DriftOf(Start(), {}, calls), p);
  }

  // ---------------------------------------------------------------- what drift is

  lemma {:induction false} DriftAppend(db: Db, drifted: set<Id>, calls: seq<Call>, call: Call)
    requires Schema(db)
    ensures DriftOf(db, drifted, calls + [call]) == Drift(Run(db, calls), DriftOf(db, drifted, calls), call)
    decreases |calls|
  {
    if calls != [] {
      assert (calls + [call])[0] == calls[0] && (calls + [call])[1..] == calls[1..] + [call];
      DriftAppend(Next(db, calls[0]), Drift(db, drifted, calls[0]), calls[1..], call);
    }
  }

  /** The i-th call revises the specification p outside draft, and p is no draft in any state since. */
  ghost predicate DriftsAt(db: Db, calls: seq<Call>, p: Id, i: nat)
    requires Schema(db) && i < |calls|
  {
    RevisesOutside(Run(db, calls[..i]), calls[i], p) && NoDraftSince(db, calls, p, i)
  }

  predicate NoDraft(db: Db, p: Id) {
    p in db.products && db.products[p].status != Draft
  }

  /** A product has drifted exactly if its specification was revised outside draft and it has been no draft since. */
  lemma {:induction false} DriftExactly(db: Db, calls: seq<Call>, p: Id)
    requires Schema(db)
    ensures p in DriftOf(db, {}, calls) <==> exists i | 0 <= i < |calls| :: DriftsAt(db, calls, p, i)
    decreases |calls|
  {
    if calls != [] {
      var n := |calls| - 1;
      var rest, last := calls[..n], calls[n];
      assert calls == rest + [last];
      DriftExactly(db, rest, p);
      DriftAppend(db, {}, rest, last);
      RunAppend(db, rest, last);
      forall i | 0 <= i < n ensures DriftsAt(db, calls, p, i) <==> DriftsAt(db, rest, p, i) && NoDraft(Run(db, calls), p) {
        DriftsLonger(db, calls, p, i);
      }
      DriftsLast(db, calls, p, n);
    }
  }

  lemma DriftsLonger(db: Db, calls: seq<Call>, p: Id, i: nat)
    requires Schema(db) && i < |calls| - 1
    ensures DriftsAt(db, calls, p, i) <==> DriftsAt(db, calls[..|calls| - 1], p, i) && NoDraft(Run(db, calls), p)
  {
    assert calls[..|calls| - 1][..i] == calls[..i];
  }

  /** p is no draft in the state after the whole run, nor in any state since the i-th call. */
  ghost predicate NoDraftSince(db: Db, calls: seq<Call>, p: Id, i: nat)
    requires Schema(db)
    decreases |calls|
  {
    i < |calls| ==> NoDraft(Run(db, calls), p) && NoDraftSince(db, calls[..|calls| - 1], p, i)
  }

  lemma SinceLast(db: Db, calls: seq<Call>, p: Id, n: nat)
    requires Schema(db) && |calls| == n + 1
    ensures NoDraftSince(db, calls, p, n) <==> NoDraft(Run(db, calls), p)
  {
    var rest := calls[..n];
    assert NoDraftSince(db, rest, p, n);
  }

  lemma DriftsLast(db: Db, calls: seq<Call>, p: Id, n: nat)
    requires Schema(db) && |calls| == n + 1
    ensures DriftsAt(db, calls, p, n) <==> RevisesOutside(Run(db, calls[..n]), calls[n], p) && NoDraft(Run(db, calls), p)
  {
    SinceLast(db, calls, p, n);
  }

  /** The guard that prevents it: an accepted revision of the specification p finds a draft. */
  ghost predicate Guarded(db: Db, call: Call, p: Id)
    requires Schema(db)
  {
    call.CallReviseSpecification? && call.product == p && Answer(db, call).1.Revised? ==> p in db.products && db.products[p].status == Draft
  }

  ghost predicate GuardedRun(db: Db, calls: seq<Call>, p: Id)
    requires Schema(db)
    decreases |calls|
  {
    calls == [] || (Guarded(db, calls[0], p) && GuardedRun(Next(db, calls[0]), calls[1..], p))
  }

  /** A product whose specification is revised only in draft never drifts, whatever happens to other products. */
  lemma {:induction false} GuardedNeverDrifts(db: Db, drifted: set<Id>, calls: seq<Call>, p: Id)
    requires Schema(db) && p !in drifted && GuardedRun(db, calls, p)
    ensures p !in DriftOf(db, drifted, calls)
    decreases |calls|
  {
    if calls != [] { GuardedNeverDrifts(Next(db, calls[0]), Drift(db, drifted, calls[0]), calls[1..], p); }
  }

  /** The exact condition for one call: an accepted specification revision keeps a product current iff it was a draft. */
  lemma SpecificationRevisionExact(db: Db, actor: Id, project: Id, p: Id, expected: nat, hash: string)
    requires ReviewInvariant(db) && Current(db, p)
    requires ReviseSpecification(db, actor, project, p, expected, hash, true).1.Revised?
    ensures Current(ReviseSpecification(db, actor, project, p, expected, hash, true).0, p) <==> db.products[p].status == Draft
  {
    var after := AppendOnly(db, p, Revision(hash, actor));
    AppendOnlyKeeps(db, p, Revision(hash, actor));
    if db.products[p].status == Draft {
      DraftIsCurrent(after, p);
    } else {
      AppendedDrifts(db, p, Revision(hash, actor));
      DriftedIsNotCurrent(after, p);
    }
  }

  lemma DriftedIsNotCurrent(db: Db, p: Id)
    requires ReviewInvariant(db) && Drifted(db, p) && db.products[p].status in {InReview, Approved}
    ensures !Current(db, p)
  {
    DriftedHasNoDecision(db, p);
    if db.products[p].status == InReview { assert IsOpen(db, TheOpen(db, p), p); }
  }
}
