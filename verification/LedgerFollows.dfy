/**
 The ledger that the computation of earned value reads follows the review tables: each call of the review protocol is,
 for the statuses of a project's products, the write that stands for it.
 */
module LedgerFollows {
  import opened Wrappers
  import opened Review
  import opened ReviewRuns
  import opened EarnedValue
  import opened InputVersions

  /** The statuses of the products of a project. */
  function StatusesIn(db: Db, project: Id): map<Id, Status> {
    map p | p in db.products && db.products[p].project == project :: db.products[p].status
  }

  predicate Belongs(db: Db, p: Id, project: Id) {
    p in db.products && db.products[p].project == project
  }

  /** The write that an accepted call makes to the ledger of the project, if it is one on its products. */
  function WriteFor(next: Id, call: Call, project: Id): Option<Write> {
    match call
    case CallCreatePlan(_, other, _, _) => if other == project then Some(CreateProduct(next)) else None
    case CallCreate(_, other, _, _, productType, _) =>
      if other != project then None
      else if productType == SpecificationType then Some(CreateSpecification(next)) else Some(CreateProduct(next))
    case CallRevise(_, other, p, _, _, _) => if other == project then Some(ReviseProduct(p)) else None
    case CallReviseSpecification(_, other, p, _, _, _) => if other == project then Some(Write.ReviseSpecification(p)) else None
    case CallSubmit(other, p, _, _, _) => if other == project then Some(SubmitProduct(p)) else None
    case CallDecide(_, other, p, kind, _, _, _) => if other == project then Some(DecisionWrite(p, kind)) else None
    case CallRetire(other, p, _, _) => if other == project then Some(RetireProduct(p)) else None
    case CallApplyPlan(_) => None
  }

  function DecisionWrite(p: Id, kind: Kind): Write {
    match kind
    case ReviewKind => ReviewProduct(p)
    case Approval => ApproveProduct(p)
    case RequestChanges => ReturnProduct(p)
  }

  ghost function WriteOf(db: Db, call: Call, project: Id): Option<Write>
    requires Schema(db)
  {
    if Step(db, call) == db then None else WriteFor(db.nextId, call, project)
  }

  /** The ledger's statuses after the call are those after the write, which is one that is accepted. */
  ghost predicate Follows(db: Db, call: Call, l: Ledger)
    requires Schema(db)
  {
    var w := WriteOf(db, call, l.project);
    && (w.Some? ==> Accepted(l, w.value))
    && StatusesIn(Step(db, call), l.project) == if w.Some? then Applied(l, w.value).statuses else l.statuses
  }

  /** One row written changes one status, of its own project. */
  lemma RowWritten(db: Db, after: Db, p: Id, row: WorkProduct, project: Id)
    requires after.products == db.products[p := row] && (p in db.products ==> db.products[p].project == row.project)
    ensures StatusesIn(after, project)
            == if row.project == project then StatusesIn(db, project)[p := row.status] else StatusesIn(db, project)
  {
  }

  lemma SameRow(l: Ledger, p: Id)
    requires p in l.statuses
    ensures l.statuses[p := l.statuses[p]] == l.statuses
  {
  }

  /** The product's row is written with this status, and no other row. */
  ghost predicate Writes(db: Db, call: Call, p: Id, status: Status)
    requires Schema(db)
  {
    && p in db.products && p in Step(db, call).products
    && Step(db, call).products == db.products[p := Step(db, call).products[p]]
    && Step(db, call).products[p].project == db.products[p].project && Step(db, call).products[p].status == status
  }

  lemma DecisionWrites(db: Db, call: Call)
    requires Schema(db) && call.CallDecide? && Step(db, call) != db
    ensures Writes(db, call, call.product, match call.kind case ReviewKind => InReview case Approval => Approved case RequestChanges => Draft)
    ensures db.products[call.product].project == call.project && db.products[call.product].status == InReview
  {
    DecideShape(db, call.actor, call.project, call.product, call.kind, call.reason, call.key, call.vetoed);
  }

  lemma ProductWrites(db: Db, call: Call)
    requires Schema(db) && (call.CallRevise? || call.CallReviseSpecification? || call.CallSubmit? || call.CallRetire?) && Step(db, call) != db
    ensures call.product in db.products && db.products[call.product].project == call.project
    ensures Writes(db, call, call.product,
                   match call case CallRevise(_, _, _, _, _, _) => Draft case CallSubmit(_, _, _, _, _) => InReview
                              case CallRetire(_, _, _, _) => Obsolete case _ => db.products[call.product].status)
    ensures call.CallSubmit? ==> db.products[call.product].status == Draft
  {
  }

  lemma DecisionStatus(l: Ledger, p: Id, kind: Kind)
    requires p in l.statuses && l.statuses[p] == InReview
    ensures Accepted(l, DecisionWrite(p, kind))
    ensures Applied(l, DecisionWrite(p, kind)).statuses
            == l.statuses[p := match kind case ReviewKind => InReview case Approval => Approved case RequestChanges => Draft]
  {
    SameRow(l, p);
  }

  lemma DecisionFollows(db: Db, call: Call, l: Ledger)
    requires Schema(db) && call.CallDecide? && l.statuses == StatusesIn(db, l.project) && Step(db, call) != db
    ensures Follows(db, call, l)
  {
    DecisionWrites(db, call);
    RowWritten(db, Step(db, call), call.product, Step(db, call).products[call.product], l.project);
    if call.product in l.statuses { DecisionStatus(l, call.product, call.kind); }
  }

  lemma CreationFollows(db: Db, call: Call, l: Ledger)
    requires Schema(db) && (call.CallCreate? || call.CallCreatePlan?) && l.statuses == StatusesIn(db, l.project) && Step(db, call) != db
    ensures Follows(db, call, l)
  {
    var p, after := db.nextId, Step(db, call);
    assert p !in db.products;
    RowWritten(db, after, p, after.products[p], l.project);
  }

  lemma RevisionFollows(db: Db, call: Call, l: Ledger)
    requires Schema(db) && call.CallRevise? && l.statuses == StatusesIn(db, l.project) && Step(db, call) != db
    ensures Follows(db, call, l)
  {
    ProductWrites(db, call);
    RowWritten(db, Step(db, call), call.product, Step(db, call).products[call.product], l.project);
  }

  lemma SpecificationFollows(db: Db, call: Call, l: Ledger)
    requires Schema(db) && call.CallReviseSpecification? && l.statuses == StatusesIn(db, l.project) && Step(db, call) != db
    ensures Follows(db, call, l)
  {
    ProductWrites(db, call);
    RowWritten(db, Step(db, call), call.product, Step(db, call).products[call.product], l.project);
    if call.product in l.statuses { SameRow(l, call.product); }
  }

  lemma SubmissionFollows(db: Db, call: Call, l: Ledger)
    requires Schema(db) && call.CallSubmit? && l.statuses == StatusesIn(db, l.project) && Step(db, call) != db
    ensures Follows(db, call, l)
  {
    ProductWrites(db, call);
    RowWritten(db, Step(db, call), call.product, Step(db, call).products[call.product], l.project);
  }

  lemma RetirementFollows(db: Db, call: Call, l: Ledger)
    requires Schema(db) && call.CallRetire? && l.statuses == StatusesIn(db, l.project) && Step(db, call) != db
    ensures Follows(db, call, l)
  {
    ProductWrites(db, call);
    RowWritten(db, Step(db, call), call.product, Step(db, call).products[call.product], l.project);
  }

  lemma ApplicationFollows(db: Db, call: Call, l: Ledger)
    requires Schema(db) && call.CallApplyPlan? && l.statuses == StatusesIn(db, l.project) && Step(db, call) != db
    ensures Follows(db, call, l)
  {
    var p, after := call.product, Step(db, call);
    RowWritten(db, after, p, after.products[p], l.project);
    if p in l.statuses { SameRow(l, p); }
  }

  /** Whatever is called, the ledger follows. */
  lemma StatusesFollow(db: Db, call: Call, l: Ledger)
    requires Schema(db) && l.statuses == StatusesIn(db, l.project)
    ensures Follows(db, call, l)
  {
    if Step(db, call) != db {
      match call
      case CallDecide(_, _, _, _, _, _, _) => DecisionFollows(db, call, l);
      case CallCreate(_, _, _, _, _, _) => CreationFollows(db, call, l);
      case CallCreatePlan(_, _, _, _) => CreationFollows(db, call, l);
      case CallRevise(_, _, _, _, _, _) => RevisionFollows(db, call, l);
      case CallReviseSpecification(_, _, _, _, _, _) => SpecificationFollows(db, call, l);
      case CallSubmit(_, _, _, _, _) => SubmissionFollows(db, call, l);
      case CallRetire(_, _, _, _) => RetirementFollows(db, call, l);
      case CallApplyPlan(_) => ApplicationFollows(db, call, l);
    }
  }

  /** The ledger as the calls leave it. */
  ghost function Followed(db: Db, calls: seq<Call>, l: Ledger): Ledger
    requires Schema(db)
    decreases |calls|
  {
    if calls == [] then l
    else
      var w := WriteOf(db, calls[0], l.project);
      Followed(Next(db, calls[0]), calls[1..], if w.Some? && Accepted(l, w.value) then Applied(l, w.value) else l)
  }

  /** After any run of calls the ledger that took their writes has the statuses of the review tables. */
  lemma {:induction false} RunFollows(db: Db, calls: seq<Call>, l: Ledger)
    requires Schema(db) && l.statuses == StatusesIn(db, l.project)
    ensures Followed(db, calls, l).project == l.project
    ensures Followed(db, calls, l).statuses == StatusesIn(Run(db, calls), l.project)
    decreases |calls|
  {
    if calls != [] {
      var w := WriteOf(db, calls[0], l.project);
      StatusesFollow(db, calls[0], l);
      var after := if w.Some? then Applied(l, w.value) else l;
      SameProject(l, w);
      RunFollows(Next(db, calls[0]), calls[1..], after);
    }
  }

  lemma SameProject(l: Ledger, w: Option<Write>)
    ensures w.Some? && Accepted(l, w.value) ==> Applied(l, w.value).project == l.project
  {
  }
}
