/**
 The version of the inputs of the metrics. Every writer commits its change together with its event, and the outbox
 trigger advances the version for some events. A write that does not advance it changes no reading of the computation.
 */
module InputVersions {
  import opened Wrappers
  import opened Review
  import opened PhaseGraph
  import opened Plan
  import opened LaborRates
  import opened EarnedValue
  import opened Economics

  // ---------------------------------------------------------------- writers

  datatype Write =
    | LogWork(record: WorkRecord)
    | AddExpense(expense: Expense)
    | AddRate(rate: LaborRate)
    | DraftBaseline(author: Id, currency: string, lines: seq<BudgetLine>)
    | PutBaseline(index: nat, approver: Id)
    | PutLink(link: Link)
    | MovePhase
    | AcceptMilestone
    | ApplyPlan(phases: seq<Schedule>)
    | CreateProduct(product: Id)
    | CreateSpecification(product: Id)
    | ReviseProduct(product: Id)
    | ReviseSpecification(product: Id)
    | SubmitProduct(product: Id)
    | ReviewProduct(product: Id)
    | ApproveProduct(product: Id)
    | ReturnProduct(product: Id)
    | RetireProduct(product: Id)

  predicate HasStatus(l: Ledger, p: Id, status: Status) {
    p in l.statuses && l.statuses[p] == status
  }

  predicate DistinctKeys(phases: seq<Schedule>) {
    forall i, j | 0 <= i < j < |phases| :: phases[i].key != phases[j].key
  }

  /** Only writes that are accepted commit anything. */
  predicate Accepted(l: Ledger, w: Write) {
    match w
    case AddRate(r) => SetLaborRate(l.rates, r).RateSet?
    case DraftBaseline(author, currency, lines) => CreateBaseline(l, author, currency, lines).1 == Done
    case PutBaseline(i, approver) => ApproveBaseline(l, i, approver).1 == Done
    case PutLink(link) => LinkDeliverable(l, link).1 == Done
    case ApplyPlan(phases) => DistinctKeys(phases)
    case CreateProduct(p) => p !in l.statuses
    case CreateSpecification(p) => p !in l.statuses
    case ReviseProduct(p) => p in l.statuses
    case ReviseSpecification(p) => p in l.statuses
    case SubmitProduct(p) => HasStatus(l, p, Draft)
    case ReviewProduct(p) => HasStatus(l, p, InReview)
    case ApproveProduct(p) => HasStatus(l, p, InReview)
    case ReturnProduct(p) => HasStatus(l, p, InReview)
    case RetireProduct(p) => p in l.statuses
    case _ => true
  }

  function SetStatus(l: Ledger, p: Id, status: Status): Ledger {
    l.(statuses := l.statuses[p := status])
  }

  predicate Lists(phases: seq<Schedule>, k: Key) {
    exists i | 0 <= i < |phases| :: phases[i].key == k
  }

  function KeptLines(lines: seq<BudgetLine>, phases: seq<Schedule>): seq<BudgetLine> {
    if lines == [] then []
    else
      var last := lines[|lines| - 1];
      KeptLines(lines[..|lines| - 1], phases) + if Lists(phases, last.phase) then [last] else []
  }

  function KeptLinks(links: seq<Link>, phases: seq<Schedule>): seq<Link> {
    if links == [] then []
    else
      var last := links[|links| - 1];
      KeptLinks(links[..|links| - 1], phases) + if Lists(phases, last.phase) then [last] else []
  }

  /** A phase that leaves the plan takes its budget lines and links with it. */
  function NewPhases(l: Ledger, phases: seq<Schedule>): Ledger {
    l.(phases := phases, generation := l.generation + 1,
       links := KeptLinks(l.links, phases),
       baselines := seq(|l.baselines|, i requires 0 <= i < |l.baselines| =>
                          l.baselines[i].(lines := KeptLines(l.baselines[i].lines, phases))))
  }

  function Applied(l: Ledger, w: Write): Ledger
    requires Accepted(l, w)
  {
    match w
    case LogWork(record) => l.(work := l.work + [record])
    case AddExpense(expense) => l.(expenses := l.expenses + [expense])
    case AddRate(r) => l.(rates := l.rates + [r])
    case DraftBaseline(author, currency, lines) => CreateBaseline(l, author, currency, lines).0
    case PutBaseline(i, approver) => ApproveBaseline(l, i, approver).0
    case PutLink(link) => LinkDeliverable(l, link).0
    case ApplyPlan(phases) => NewPhases(l, phases)
    case CreateProduct(p) => SetStatus(l, p, Draft)
    case CreateSpecification(p) => SetStatus(l, p, Draft)
    case ReviseProduct(p) => SetStatus(l, p, Draft)
    case SubmitProduct(p) => SetStatus(l, p, InReview)
    case ApproveProduct(p) => SetStatus(l, p, Approved)
    case ReturnProduct(p) => SetStatus(l, p, Draft)
    case RetireProduct(p) => SetStatus(l, p, Obsolete)
    case _ => l
  }

  /** The event that the write puts into the outbox, if any. A rate for the whole system concerns
      the projects that have work in its role. */
  function EventOf(l: Ledger, w: Write): Option<string> {
    match w
    case LogWork(_) => Some("economics.inputs_changed")
    case AddExpense(_) => Some("economics.inputs_changed")
    case AddRate(r) =>
      if r.project == Some(l.project) || (r.project.None? && exists i | 0 <= i < |l.work| :: l.work[i].role == r.role)
      then Some("economics.inputs_changed") else None
    case DraftBaseline(_, _, _) => None
    case PutBaseline(_, _) => Some("economics.inputs_changed")
    case PutLink(_) => Some("economics.inputs_changed")
    case MovePhase => Some("phase.transitioned")
    case AcceptMilestone => Some("milestone.accepted")
    case ApplyPlan(_) => Some("plan.applied")
    case CreateProduct(_) => Some("wp.revision_committed")
    case CreateSpecification(_) => None
    case ReviseProduct(_) => Some("wp.revision_committed")
    case ReviseSpecification(_) => None
    case SubmitProduct(_) => Some("wp.submitted_for_review")
    case ReviewProduct(_) => None
    case ApproveProduct(_) => Some("wp.approved")
    case ReturnProduct(_) => Some("wp.changes_requested")
    case RetireProduct(_) => Some("wp.retired")
  }

  /** The events that advance the version of the inputs. */
  const Advancing: set<string> := {"economics.inputs_changed", "phase.transitioned", "wp.approved", "wp.revision_committed",
                                   "plan.applied", "wp.retired"}

  predicate Advances(l: Ledger, w: Write) {
    EventOf(l, w).Some? && EventOf(l, w).value in Advancing
  }

  // ---------------------------------------------------------------- keys of the tables

  predicate LinksRefer(l: Ledger) {
    forall i | 0 <= i < |l.links| :: l.links[i].product in l.statuses
  }

  /** The primary key of the phases, and the foreign key of the links to the work products. */
  predicate Keyed(l: Ledger) {
    DistinctKeys(l.phases) && LinksRefer(l)
  }

  lemma {:induction false} KeptLinksAmong(links: seq<Link>, phases: seq<Schedule>)
    ensures forall i | 0 <= i < |KeptLinks(links, phases)| :: KeptLinks(links, phases)[i] in links
  {
    if links != [] { KeptLinksAmong(links[..|links| - 1], phases); }
  }

  lemma WriteKeepsKeys(l: Ledger, w: Write)
    requires Accepted(l, w) && Keyed(l)
    ensures Keyed(Applied(l, w))
  {
    if w.ApplyPlan? { KeptLinksAmong(l.links, w.phases); }
  }

  // ---------------------------------------------------------------- quiet writes

  /** The join with the work products finds both or none, and both or none approved. */
  predicate SameStanding(l: Ledger, m: Ledger, p: Id) {
    (p in l.statuses <==> p in m.statuses) && (IsApproved(l, p) <==> IsApproved(m, p))
  }

  /** The two ledgers answer every query of the computation alike; versions drafted since may be added. */
  ghost predicate SameReadings(l: Ledger, m: Ledger) {
    && l.project == m.project && l.generation == m.generation && l.phases == m.phases
    && l.work == m.work && l.expenses == m.expenses && l.links == m.links
    && l.baselines <= m.baselines
    && (forall i | |l.baselines| <= i < |m.baselines| :: m.baselines[i].status != BaselineApproved)
    && (forall i | 0 <= i < |l.links| :: SameStanding(l, m, l.links[i].product))
    && (forall i | 0 <= i < |l.work| :: Priced(l, l.work[i]) == Priced(m, l.work[i]))
  }

  lemma {:induction false} SameApprovedBaseline(bs: seq<Baseline>, cs: seq<Baseline>)
    requires bs <= cs && forall i | |bs| <= i < |cs| :: cs[i].status != BaselineApproved
    ensures ApprovedBaseline(bs) == ApprovedBaseline(cs)
    decreases |cs|
  {
    if bs == cs {
    } else {
      SameApprovedBaseline(bs, cs[..|cs| - 1]);
    }
  }

  lemma {:induction false} SameLaborCosts(l: Ledger, m: Ledger, work: seq<WorkRecord>, asOf: int)
    requires forall i | 0 <= i < |work| :: Priced(l, work[i]) == Priced(m, work[i])
    ensures LaborCosts(l, work, asOf) == LaborCosts(m, work, asOf)
  {
    if work != [] {
      SameLaborCosts(l, m, work[..|work| - 1], asOf);
      assert Priced(l, work[|work| - 1]) == Priced(m, work[|work| - 1]);
    }
  }

  lemma {:induction false} SameWeights(l: Ledger, m: Ledger, links: seq<Link>, approvedOnly: bool)
    requires forall i | 0 <= i < |links| :: SameStanding(l, m, links[i].product)
    ensures Weights(l, links, approvedOnly) == Weights(m, links, approvedOnly)
  {
    if links != [] {
      SameWeights(l, m, links[..|links| - 1], approvedOnly);
      assert SameStanding(l, m, links[|links| - 1].product);
    }
  }

  lemma SameRows(l: Ledger, m: Ledger, lines: seq<BudgetLine>, asOf: int)
    requires SameReadings(l, m)
    ensures PhaseRows(l, lines, asOf) == PhaseRows(m, lines, asOf)
  {
    SameLaborCosts(l, m, l.work, asOf);
    SameWeights(l, m, l.links, true);
    SameWeights(l, m, l.links, false);
    assert Costs(l, asOf) == Costs(m, asOf);
    forall i | 0 <= i < |l.phases| ensures PhaseRows(l, lines, asOf)[i] == PhaseRows(m, lines, asOf)[i] {
      assert PhaseRowValues(l, lines, l.phases[i], asOf) == PhaseRowValues(m, lines, m.phases[i], asOf);
    }
  }

  lemma SameComplete(l: Ledger, m: Ledger, currency: string, asOf: int)
    requires SameReadings(l, m)
    ensures CostsComplete(l, currency, asOf) <==> CostsComplete(m, currency, asOf)
  {
    assert forall i | 0 <= i < |l.work| :: Priced(l, l.work[i]) == Priced(m, m.work[i]);
  }

  /** Ledgers with the same readings have the same earned value at every date. */
  lemma SameEvm(l: Ledger, m: Ledger, asOf: int)
    requires SameReadings(l, m)
    ensures Evm(l, asOf) == Evm(m, asOf) && ApprovedBaseline(l.baselines) == ApprovedBaseline(m.baselines)
  {
    SameApprovedBaseline(l.baselines, m.baselines);
    var approved := ApprovedBaseline(l.baselines);
    if approved.Some? {
      var b := l.baselines[approved.value];
      SameComplete(l, m, b.currency, asOf);
      SameRows(l, m, b.lines, asOf);
    }
  }

  lemma RateOfOtherRole(l: Ledger, r: LaborRate, w: WorkRecord)
    requires r.role != w.role || (r.project.Some? && r.project != Some(l.project))
    ensures Priced(l.(rates := l.rates + [r]), w) == Priced(l, w)
  {
    FindRateAppend(l.rates, r, Some(l.project), w.role, w.date);
    FindRateAppend(l.rates, r, None, w.role, w.date);
  }

  /** A write whose event does not advance the version changes no reading. */
  lemma QuietWrite(l: Ledger, w: Write)
    requires LinksRefer(l) && Accepted(l, w) && !Advances(l, w)
    ensures SameReadings(l, Applied(l, w))
  {
    var after := Applied(l, w);
    if w.AddRate? {
      forall i | 0 <= i < |l.work| ensures Priced(l, l.work[i]) == Priced(after, l.work[i]) {
        RateOfOtherRole(l, w.rate, l.work[i]);
      }
    }
  }

  /** The writes that advance the version: those whose event the trigger lists. A review and what only moves work through review
      do not, nor do a drafted baseline, a passed milestone, a specification call, and a rate that prices none of the work here. */
  lemma AdvancesExactly(l: Ledger, w: Write)
    ensures Advances(l, w) <==>
            match w
            case AddRate(r) => r.project == Some(l.project) || (r.project == None && exists i | 0 <= i < |l.work| :: l.work[i].role == r.role)
            case DraftBaseline(_, _, _) => false
            case AcceptMilestone => false
            case CreateSpecification(_) => false
            case ReviseSpecification(_) => false
            case SubmitProduct(_) => false
            case ReviewProduct(_) => false
            case ReturnProduct(_) => false
            case _ => true
  {
  }

  // ---------------------------------------------------------------- what the writes leave

  lemma {:induction false} KeptLinesExactly(lines: seq<BudgetLine>, phases: seq<Schedule>, line: BudgetLine)
    ensures line in KeptLines(lines, phases) <==> line in lines && exists i | 0 <= i < |phases| :: phases[i].key == line.phase
  {
    if lines != [] {
      KeptLinesExactly(lines[..|lines| - 1], phases, line);
      assert lines == lines[..|lines| - 1] + [lines[|lines| - 1]];
    }
  }

  lemma {:induction false} KeptLinksExactly(links: seq<Link>, phases: seq<Schedule>, link: Link)
    ensures link in KeptLinks(links, phases) <==> link in links && exists i | 0 <= i < |phases| :: phases[i].key == link.phase
  {
    if links != [] {
      KeptLinksExactly(links[..|links| - 1], phases, link);
      assert links == links[..|links| - 1] + [links[|links| - 1]];
    }
  }

  /** A new plan brings its phases and the next generation; exactly the links and budget lines of its phases are kept, and nothing
      else changes. */
  lemma NewPlanLeaves(l: Ledger, phases: seq<Schedule>, i: nat, line: BudgetLine, link: Link)
    requires Accepted(l, Write.ApplyPlan(phases))
    ensures var after := Applied(l, Write.ApplyPlan(phases));
            && after == l.(phases := phases, generation := l.generation + 1, links := after.links, baselines := after.baselines)
            && (link in after.links <==> link in l.links && exists j | 0 <= j < |phases| :: phases[j].key == link.phase)
            && |after.baselines| == |l.baselines|
            && (i < |l.baselines| ==>
                  && after.baselines[i] == l.baselines[i].(lines := after.baselines[i].lines)
                  && (line in after.baselines[i].lines <==>
                        line in l.baselines[i].lines && exists j | 0 <= j < |phases| :: phases[j].key == line.phase))
  {
    KeptLinksExactly(l.links, phases, link);
    if i < |l.baselines| { KeptLinesExactly(l.baselines[i].lines, phases, line); }
  }

  /** Records and rates are added, a version drafted or put in force, a link set. */
  lemma WritesLeave(l: Ledger, w: Write)
    requires Accepted(l, w)
    ensures var after := Applied(l, w);
            match w
            case LogWork(record) => after == l.(work := l.work + [record])
            case AddExpense(expense) => after == l.(expenses := l.expenses + [expense])
            case AddRate(r) => after == l.(rates := l.rates + [r])
            case DraftBaseline(author, currency, lines) =>
              after == l.(baselines := l.baselines + [Baseline(currency, BaselineDraft, author, None, lines)])
            case PutBaseline(i, approver) =>
              i < |l.baselines| && |after.baselines| == |l.baselines|
              && after.baselines[i] == l.baselines[i].(status := BaselineApproved, approvedBy := Some(approver))
            case PutLink(link) => after == l.(links := after.links) && link in after.links
            case _ => true
  {
    if w.PutLink? {
      var i := LinkIndex(l.links, w.link.product);
      assert Applied(l, w).links[if i.Some? then i.value else |l.links|] == w.link;
    }
  }
}
