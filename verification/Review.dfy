/**
 The review protocol of a work product: the tables it reads and writes, and what each
 operation makes of them. A work product moves draft -> in_review -> approved or back to draft,
 and may be retired; a review request pins one revision and its hash; a decision needs an
 assignment, independence from the author of the revision and, for an approval, a positive review.

 Every operation is one transaction, so it is a function from the tables to the tables
 and a reply. `ReviewInvariant` states what the protocol keeps.
 */
module Review {
  import opened Wrappers

  type Id = nat

  /** A revision is named by its product and its number (unique together in the schema). */
  datatype RevisionId = RevisionId(product: Id, number: nat)

  datatype Status = Draft | InReview | Approved | Obsolete

  datatype ProductType = PlanType | SpecificationType | CoreType | UnknownType

  datatype WorkProduct = WorkProduct(project: Id, code: string, productType: ProductType, status: Status, rowVersion: nat)

  /** The payload hash is kept as its preimage: SHA-256 is taken as injective. */
  datatype Revision = Revision(hash: string, author: Id)

  datatype RequestStatus = Open | RequestApproved | ChangesRequested | Superseded

  datatype Request = Request(project: Id, product: Id, revision: RevisionId, hash: string, status: RequestStatus)

  datatype Role = Reviewer | Approver | OtherRole(name: string)

  datatype Assignment = Assignment(user: Id, role: Role)

  /** One row of review_assignments. */
  datatype Assigned = Assigned(request: Id, user: Id, role: Role)

  datatype Kind = ReviewKind | Approval | RequestChanges

  datatype Outcome = Positive | ChangesWanted

  datatype Decision = Decision(id: Id, request: Id, revision: RevisionId, hash: string, kind: Kind, outcome: Outcome,
                               decider: Id, reason: Option<string>, key: Option<string>)

  datatype Db = Db(products: map<Id, WorkProduct>, revisions: map<Id, seq<Revision>>, requests: map<Id, Request>,
                   assignees: set<Assigned>, decisions: seq<Decision>, nextId: Id)

  datatype Error =
    | PlanReserved | InvalidType | InvalidCode | CodeTaken | ProductNotFound | VersionConflict | ProductObsolete
    | RuleVeto | NoRevision | AssignmentsInvalid | NotDraft | AssigneeIsAuthor | RequestAlreadyOpen
    | ReasonRequired | OperationConflict | NotInReview | RequestMissing | NotAssigned | SelfDecision | StaleRevision
    | NoPositiveReview | DuplicateDecision | SpecificationInvalid

  datatype Reply =
    | Created(product: Id)
    | Revised(revision: RevisionId)
    | Submitted(request: Id)
    | Decided(decision: Decision, productStatus: Status)
    | Retired
    | Refused(error: Error)

  // ---------------------------------------------------------------- reading the tables

  function History(db: Db, p: Id): seq<Revision> {
    if p in db.revisions then db.revisions[p] else []
  }

  /** The revision with the greatest number of a product. */
  function Latest(db: Db, p: Id): RevisionId {
    RevisionId(p, |History(db, p)|)
  }

  predicate KnownRevision(db: Db, r: RevisionId) {
    1 <= r.number <= |History(db, r.product)|
  }

  function RevisionOf(db: Db, r: RevisionId): Revision
    requires KnownRevision(db, r)
  {
    History(db, r.product)[r.number - 1]
  }

  function AuthorOf(db: Db, r: RevisionId): Id
    requires KnownRevision(db, r)
  {
    RevisionOf(db, r).author
  }

  predicate IsOpen(db: Db, q: Id, p: Id) {
    q in db.requests && db.requests[q].product == p && db.requests[q].status == Open
  }

  predicate HasOpen(db: Db, p: Id) {
    exists q | q in db.requests :: IsOpen(db, q, p)
  }

  ghost function TheOpen(db: Db, p: Id): (q: Id)
    requires HasOpen(db, p)
    ensures IsOpen(db, q, p)
  {
    var q :| q in db.requests && IsOpen(db, q, p);
    q
  }

  predicate InProject(db: Db, p: Id, project: Id) {
    p in db.products && db.products[p].project == project
  }

  predicate CodeInUse(db: Db, project: Id, code: string) {
    exists p | p in db.products :: db.products[p].project == project && db.products[p].code == code
  }

  function NullIfBlank(s: string): Option<string> {
    if s == "" then None else Some(s)
  }

  /** Index of the decision stored under an operation key. */
  function FindKey(ds: seq<Decision>, key: string): (r: Option<nat>)
    ensures r.Some? ==> r.value < |ds| && ds[r.value].key == Some(key)
    ensures r.None? ==> forall i | 0 <= i < |ds| :: ds[i].key != Some(key)
  {
    if ds == [] then None
    else if ds[|ds| - 1].key == Some(key) then Some(|ds| - 1)
    else FindKey(ds[..|ds| - 1], key)
  }

  /** A review needs a reviewer, an approval an approver; either may ask for changes. */
  predicate AssignedFor(db: Db, q: Id, user: Id, kind: Kind) {
    match kind
    case ReviewKind => Assigned(q, user, Reviewer) in db.assignees
    case Approval => Assigned(q, user, Approver) in db.assignees
    case RequestChanges => Assigned(q, user, Reviewer) in db.assignees || Assigned(q, user, Approver) in db.assignees
  }

  predicate IsPositiveReview(d: Decision, q: Id) {
    d.request == q && d.kind == ReviewKind && d.outcome == Positive
  }

  predicate HasPositiveReview(ds: seq<Decision>, q: Id) {
    exists i | 0 <= i < |ds| :: IsPositiveReview(ds[i], q)
  }

  predicate SameSignature(d: Decision, q: Id, user: Id, kind: Kind) {
    d.request == q && d.decider == user && d.kind == kind
  }

  predicate AlreadyDecided(ds: seq<Decision>, q: Id, user: Id, kind: Kind) {
    exists i | 0 <= i < |ds| :: SameSignature(ds[i], q, user, kind)
  }

  // ---------------------------------------------------------------- writing the tables

  function SetProduct(db: Db, p: Id, status: Status): Db
    requires p in db.products
  {
    db.(products := db.products[p := db.products[p].(status := status, rowVersion := db.products[p].rowVersion + 1)])
  }

  function CloseRequest(db: Db, q: Id, status: RequestStatus): Db
    requires q in db.requests
  {
    db.(requests := db.requests[q := db.requests[q].(status := status)])
  }

  function Supersede(r: Request, p: Id): Request {
    if r.product == p && r.status == Open then r.(status := Superseded) else r
  }

  function SupersedeOpen(db: Db, p: Id): Db {
    db.(requests := map q | q in db.requests :: Supersede(db.requests[q], p))
  }

  function AppendRevision(db: Db, p: Id, revision: Revision): Db {
    db.(revisions := db.revisions[p := History(db, p) + [revision]])
  }

  /** A new revision returns the product to draft and supersedes its open request. */
  function AddRevision(db: Db, p: Id, revision: Revision): Db
    requires p in db.products
  {
    SupersedeOpen(SetProduct(AppendRevision(db, p, revision), p, Draft), p)
  }

  /** Only the row version changes, as when a plan is put into effect. */
  function Bump(db: Db, p: Id): Db
    requires p in db.products
  {
    SetProduct(db, p, db.products[p].status)
  }

  /** A revision that changes neither the status nor the open request. */
  function AppendOnly(db: Db, p: Id, revision: Revision): Db
    requires p in db.products
  {
    Bump(AppendRevision(db, p, revision), p)
  }

  function Retirement(db: Db, p: Id): Db
    requires p in db.products
  {
    SupersedeOpen(SetProduct(db, p, Obsolete), p)
  }

  /** A decision closes the request and moves its product. */
  function Closing(db: Db, q: Id, status: RequestStatus, p: Id, target: Status): Db
    requires q in db.requests && p in db.products
  {
    SetProduct(CloseRequest(db, q, status), p, target)
  }

  // ---------------------------------------------------------------- operations

  /** A specification is created like any other product, through a call of its own. */
  function Create(db: Db, actor: Id, project: Id, code: string, title: string, productType: ProductType, hash: string): (Db, Reply) {
    if productType == PlanType then (db, Refused(PlanReserved))
    else if productType == UnknownType then (db, Refused(InvalidType))
    else if code == "" || title == "" then (db, Refused(InvalidCode))
    else if CodeInUse(db, project, code) then (db, Refused(CodeTaken))
    else (Insert(db, actor, project, code, productType, hash), Created(db.nextId))
  }

  /** A new draft with its first revision. */
  function Insert(db: Db, actor: Id, project: Id, code: string, productType: ProductType, hash: string): Db {
    db.(products := db.products[db.nextId := WorkProduct(project, code, productType, Draft, 1)],
        revisions := db.revisions[db.nextId := [Revision(hash, actor)]],
        nextId := db.nextId + 1)
  }

  function Revise(db: Db, actor: Id, project: Id, p: Id, expected: nat, hash: string, vetoed: bool): (Db, Reply) {
    if !InProject(db, p, project) then (db, Refused(ProductNotFound))
    else if vetoed then (db, Refused(RuleVeto))
    else if db.products[p].rowVersion != expected then (db, Refused(VersionConflict))
    else if History(db, p) == [] then (db, Refused(NoRevision))
    else (AddRevision(db, p, Revision(hash, actor)), Revised(RevisionId(p, |History(db, p)| + 1)))
  }

  /** Unlike `Revise`, a new specification revision changes neither the status nor the open request. */
  function ReviseSpecification(db: Db, actor: Id, project: Id, p: Id, expected: nat, hash: string, contentValid: bool): (Db, Reply) {
    if !contentValid then (db, Refused(SpecificationInvalid))
    else if !InProject(db, p, project) || db.products[p].productType != SpecificationType then (db, Refused(ProductNotFound))
    else if db.products[p].status == Obsolete then (db, Refused(ProductObsolete))
    else if db.products[p].rowVersion != expected then (db, Refused(VersionConflict))
    else if History(db, p) == [] then (db, Refused(NoRevision))
    else (AppendOnly(db, p, Revision(hash, actor)), Revised(RevisionId(p, |History(db, p)| + 1)))
  }

  /** What is wrong with the i-th proposed assignment. */
  function Offence(assignments: seq<Assignment>, i: nat, author: Id, eligible: set<Assignment>): Option<Error>
    requires i < |assignments|
  {
    var a := assignments[i];
    if a.user == author then Some(AssigneeIsAuthor)
    else if a.role.OtherRole? || a in assignments[..i] || a !in eligible then Some(AssignmentsInvalid)
    else None
  }

  /** The first offence among the first n assignments. */
  function FirstOffence(assignments: seq<Assignment>, n: nat, author: Id, eligible: set<Assignment>): (r: Option<Error>)
    requires n <= |assignments|
    ensures r.None? <==> forall i | 0 <= i < n :: Offence(assignments, i, author, eligible).None?
    ensures r.Some? ==> r.value == AssigneeIsAuthor || r.value == AssignmentsInvalid
  {
    if n == 0 then None
    else
      var before := FirstOffence(assignments, n - 1, author, eligible);
      if before.Some? then before else Offence(assignments, n - 1, author, eligible)
  }

  predicate HasRole(assignments: seq<Assignment>, role: Role) {
    exists i | 0 <= i < |assignments| :: assignments[i].role == role
  }

  function Assign(db: Db, q: Id, assignments: seq<Assignment>): Db {
    db.(assignees := db.assignees + set a | a in assignments :: Assigned(q, a.user, a.role))
  }

  function OpenRequest(db: Db, project: Id, p: Id): Db
    requires KnownRevision(db, Latest(db, p))
  {
    db.(requests := db.requests[db.nextId := Request(project, p, Latest(db, p), RevisionOf(db, Latest(db, p)).hash, Open)],
        nextId := db.nextId + 1)
  }

  /** A request for the latest revision, with its assignments, puts the product in review. */
  function Submission(db: Db, project: Id, p: Id, assignments: seq<Assignment>): Db
    requires p in db.products && KnownRevision(db, Latest(db, p))
  {
    SetProduct(Assign(OpenRequest(db, project, p), db.nextId, assignments), p, InReview)
  }

  function Submit(db: Db, project: Id, p: Id, assignments: seq<Assignment>, eligible: set<Assignment>, vetoed: bool): (Db, Reply) {
    if assignments == [] then (db, Refused(AssignmentsInvalid))
    else if !InProject(db, p, project) then (db, Refused(ProductNotFound))
    else if db.products[p].status != Draft then (db, Refused(NotDraft))
    else if History(db, p) == [] then (db, Refused(NoRevision))
    else
      var offence := FirstOffence(assignments, |assignments|, AuthorOf(db, Latest(db, p)), eligible);
      if offence.Some? then (db, Refused(offence.value))
      else if !HasRole(assignments, Reviewer) || !HasRole(assignments, Approver) then (db, Refused(AssignmentsInvalid))
      else if vetoed then (db, Refused(RuleVeto))
      else if HasOpen(db, p) then (db, Refused(RequestAlreadyOpen))
      else (Submission(db, project, p, assignments), Submitted(db.nextId))
  }

  /** The reply to a repeated operation key: the stored decision, if the call is the same and still current. */
  function Replay(db: Db, i: nat, actor: Id, project: Id, p: Id, kind: Kind, reason: string): Reply
    requires i < |db.decisions| && db.decisions[i].request in db.requests
    requires db.requests[db.decisions[i].request].product in db.products
  {
    var d := db.decisions[i];
    var q := db.requests[d.request];
    if d.decider != actor || q.project != project || q.product != p || d.kind != kind ||
       d.revision != Latest(db, q.product) || d.reason != NullIfBlank(reason)
    then Refused(OperationConflict)
    else Decided(d, db.products[q.product].status)
  }

  function OutcomeOf(kind: Kind): Outcome {
    if kind == RequestChanges then ChangesWanted else Positive
  }

  function NewDecision(db: Db, q: Id, actor: Id, kind: Kind, reason: string, key: string): Decision
    requires q in db.requests && KnownRevision(db, db.requests[q].revision)
  {
    Decision(db.nextId, q, db.requests[q].revision, RevisionOf(db, db.requests[q].revision).hash, kind, OutcomeOf(kind),
             actor, NullIfBlank(reason), NullIfBlank(key))
  }

  function Record(db: Db, d: Decision): Db {
    db.(decisions := db.decisions + [d], nextId := db.nextId + 1)
  }

  /** An approval or a demand for changes closes the request and moves the product; a review moves nothing. */
  function Effect(db: Db, q: Id, p: Id, kind: Kind): Db
    requires q in db.requests && p in db.products
  {
    match kind
    case ReviewKind => db
    case Approval => Closing(db, q, RequestApproved, p, Approved)
    case RequestChanges => Closing(db, q, ChangesRequested, p, Draft)
  }

  /** Why the open request q refuses this decision. */
  function Refusal(db: Db, q: Id, actor: Id, kind: Kind, vetoed: bool): Option<Error>
    requires q in db.requests && KnownRevision(db, db.requests[q].revision)
  {
    var revision := RevisionOf(db, db.requests[q].revision);
    if !AssignedFor(db, q, actor, kind) then Some(NotAssigned)
    else if actor == revision.author then Some(SelfDecision)
    else if db.requests[q].hash != revision.hash then Some(StaleRevision)
    else if kind == Approval && !HasPositiveReview(db.decisions, q) then Some(NoPositiveReview)
    else if kind != ReviewKind && vetoed then Some(RuleVeto)
    else if AlreadyDecided(db.decisions, q, actor, kind) then Some(DuplicateDecision)
    else None
  }

  /** A decision under a fresh operation key, or without one. */
  ghost function DecideFresh(db: Db, actor: Id, project: Id, p: Id, kind: Kind, reason: string, key: string, vetoed: bool): (Db, Reply)
    requires Schema(db)
  {
    if !InProject(db, p, project) then (db, Refused(ProductNotFound))
    else if db.products[p].status != InReview then (db, Refused(NotInReview))
    else if !HasOpen(db, p) then (db, Refused(RequestMissing))
    else
      var q := TheOpen(db, p);
      var refusal := Refusal(db, q, actor, kind, vetoed);
      if refusal.Some? then (db, Refused(refusal.value))
      else
        var d := NewDecision(db, q, actor, kind, reason, key);
        var after := Effect(Record(db, d), q, p, kind);
        (after, Decided(d, after.products[p].status))
  }

  ghost function Decide(db: Db, actor: Id, project: Id, p: Id, kind: Kind, reason: string, key: string, vetoed: bool): (Db, Reply)
    requires Schema(db)
  {
    if kind == RequestChanges && reason == "" then (db, Refused(ReasonRequired))
    else if key != "" && FindKey(db.decisions, key).Some? then
      (db, Replay(db, FindKey(db.decisions, key).value, actor, project, p, kind, reason))
    else DecideFresh(db, actor, project, p, kind, reason, key, vetoed)
  }

  function Retire(db: Db, project: Id, p: Id, expected: nat, vetoed: bool): (Db, Reply) {
    if !InProject(db, p, project) then (db, Refused(ProductNotFound))
    else if db.products[p].productType == PlanType then (db, Refused(PlanReserved))
    else if db.products[p].status == Obsolete then (db, Retired)
    else if db.products[p].rowVersion != expected then (db, Refused(VersionConflict))
    else if vetoed then (db, Refused(RuleVeto))
    else (Retirement(db, p), Retired)
  }

  // ---------------------------------------------------------------- constraints of the schema

  ghost predicate SingleOpen(db: Db) {
    forall q, q', p :: IsOpen(db, q, p) && IsOpen(db, q', p) ==> q == q'
  }

  ghost predicate RequestsRefer(db: Db) {
    forall q | q in db.requests ::
      && q < db.nextId
      && db.requests[q].product in db.products
      && db.requests[q].project == db.products[db.requests[q].product].project
      && db.requests[q].revision.product == db.requests[q].product
      && KnownRevision(db, db.requests[q].revision)
  }

  ghost predicate ProductsRefer(db: Db) {
    && db.revisions.Keys == db.products.Keys
    && forall p | p in db.products :: p < db.nextId && |db.revisions[p]| >= 1
  }

  ghost predicate DecisionsRefer(db: Db) {
    forall i | 0 <= i < |db.decisions| ::
      db.decisions[i].request in db.requests && db.decisions[i].revision == db.requests[db.decisions[i].request].revision
  }

  ghost predicate OneSignature(ds: seq<Decision>) {
    forall i, j | 0 <= i < j < |ds| :: !SameSignature(ds[j], ds[i].request, ds[i].decider, ds[i].kind)
  }

  ghost predicate OneDecisionPerKey(ds: seq<Decision>) {
    forall i, j | 0 <= i < j < |ds| :: ds[i].key.Some? ==> ds[i].key != ds[j].key
  }

  ghost predicate AssignedRefer(db: Db) {
    forall a | a in db.assignees :: a.request in db.requests
  }

  /** What the database itself enforces: foreign keys, unique indexes and generated ids. */
  ghost predicate Schema(db: Db) {
    && ProductsRefer(db)
    && RequestsRefer(db)
    && AssignedRefer(db)
    && DecisionsRefer(db)
    && SingleOpen(db)
    && OneSignature(db.decisions)
    && OneDecisionPerKey(db.decisions)
  }

  // ---------------------------------------------------------------- the protocol

  /** A product is in review exactly while it has an open request. */
  ghost predicate InReviewIffOpen(db: Db) {
    forall p | p in db.products :: db.products[p].status == InReview <==> HasOpen(db, p)
  }

  ghost predicate HashesPinned(db: Db)
    requires RequestsRefer(db)
  {
    forall q | q in db.requests :: db.requests[q].hash == RevisionOf(db, db.requests[q].revision).hash
  }

  /** The i-th decision was taken by an assigned person other than the author, on the pinned hash. */
  ghost predicate Independent(db: Db, i: nat)
    requires RequestsRefer(db) && DecisionsRefer(db)
  {
    && i < |db.decisions|
    && AssignedFor(db, db.decisions[i].request, db.decisions[i].decider, db.decisions[i].kind)
    && db.decisions[i].decider != AuthorOf(db, db.decisions[i].revision)
    && db.decisions[i].outcome == OutcomeOf(db.decisions[i].kind)
    && db.decisions[i].hash == db.requests[db.decisions[i].request].hash
  }

  ghost predicate DecidedIndependently(db: Db)
    requires RequestsRefer(db) && DecisionsRefer(db)
  {
    forall i | 0 <= i < |db.decisions| :: Independent(db, i)
  }

  /** The i-th decision is an approval of revision r with an earlier positive review in the same request. */
  predicate ReviewedApproval(ds: seq<Decision>, i: nat, r: RevisionId) {
    i < |ds| && ds[i].kind == Approval && ds[i].revision == r && HasPositiveReview(ds[..i], ds[i].request)
  }

  ghost predicate ApprovalsFollowReviews(db: Db)
    requires DecisionsRefer(db)
  {
    forall i | 0 <= i < |db.decisions| && db.decisions[i].kind == Approval ::
      && ReviewedApproval(db.decisions, i, db.decisions[i].revision)
      && db.requests[db.decisions[i].request].status == RequestApproved
  }

  predicate HasApproval(ds: seq<Decision>, r: RevisionId) {
    exists i | 0 <= i < |ds| :: ReviewedApproval(ds, i, r)
  }

  /** The open request of the product names its latest revision, and if it is approved, its latest revision is. */
  ghost predicate Current(db: Db, p: Id) {
    && (forall q | q in db.requests && IsOpen(db, q, p) :: db.requests[q].revision == Latest(db, p))
    && (p in db.products && db.products[p].status == Approved ==> HasApproval(db.decisions, Latest(db, p)))
  }

  /** The product is no draft, and its latest revision came after every request, so nobody was asked about it. */
  ghost predicate Drifted(db: Db, p: Id) {
    && p in db.products && db.products[p].status != Draft
    && (forall q | q in db.requests && db.requests[q].product == p :: db.requests[q].revision.number < |History(db, p)|)
  }

  /** The products in the set have drifted, the others are current. */
  ghost predicate Tracked(db: Db, drifted: set<Id>) {
    && (forall p | p in drifted :: Drifted(db, p))
    && (forall p | p in db.products && p !in drifted :: Current(db, p))
  }

  // ---------------------------------------------------------------- growth

  predicate SamePin(r: Request, s: Request) {
    r.project == s.project && r.product == s.product && r.revision == s.revision && r.hash == s.hash
  }

  /** Revisions, pins, assignments and decisions are only ever added to. */
  ghost predicate Grows(db: Db, after: Db) {
    && (forall p | p in db.products :: p in after.products && db.products[p].project == after.products[p].project
                                       && db.products[p].productType == after.products[p].productType)
    && (forall p | p in db.revisions :: p in after.revisions && db.revisions[p] <= after.revisions[p])
    && (forall q | q in db.requests :: q in after.requests && SamePin(db.requests[q], after.requests[q]))
    && db.assignees <= after.assignees
    && db.decisions <= after.decisions
    && db.nextId <= after.nextId
  }

  /** What every call keeps. Whether a product is current is a matter of the run: see `ReviewDrift`. */
  ghost predicate Protocol(db: Db)
    requires Schema(db)
  {
    && InReviewIffOpen(db)
    && HashesPinned(db)
    && DecidedIndependently(db)
    && ApprovalsFollowReviews(db)
  }

  ghost predicate ReviewInvariant(db: Db) {
    Schema(db) && Protocol(db)
  }
}
