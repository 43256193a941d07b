/**
 The writers of the cost tables: rates, baselines with their approval by a second person, and the weights of deliverables.
 Each method of `CostStore` updates the tables step by step and is proved against the function of the same operation.
 */
module Economics {
  import opened Wrappers
  import opened Review
  import opened PhaseGraph
  import opened Plan
  import opened LaborRates
  import opened EarnedValue

  datatype CostReply = Done | BaselineNotFound | BaselineApprovedAlready | SelfApproval | CurrencyInvalid | LineInvalid | LinkInvalid | RateRefused(reply: RateReply)

  // ---------------------------------------------------------------- baselines

  predicate HasPhase(l: Ledger, k: Key) {
    exists i | 0 <= i < |l.phases| :: l.phases[i].key == k
  }

  /** A line names an existing phase and a known category, its limit covers its plan, and no earlier line has its phase and category. */
  predicate LineFits(l: Ledger, lines: seq<BudgetLine>, i: nat)
    requires i < |lines|
  {
    && HasPhase(l, lines[i].phase) && lines[i].category in CostCategories
    && lines[i].planned <= lines[i].limit
    && forall j | 0 <= j < i :: (lines[j].phase, lines[j].category) != (lines[i].phase, lines[i].category)
  }

  predicate LinesFit(l: Ledger, lines: seq<BudgetLine>) {
    forall i | 0 <= i < |lines| :: LineFits(l, lines, i)
  }

  /** A new draft version; a line that does not fit leaves no baseline behind. */
  function CreateBaseline(l: Ledger, author: Id, currency: string, lines: seq<BudgetLine>): (Ledger, CostReply) {
    if !CurrencyCode(currency) then (l, CurrencyInvalid)
    else if !LinesFit(l, lines) then (l, LineInvalid)
    else (l.(baselines := l.baselines + [Baseline(currency, BaselineDraft, author, None, lines)]), Done)
  }

  function Withdraw(b: Baseline): Baseline {
    if b.status == BaselineApproved then b.(status := BaselineSuperseded, approvedBy := None) else b
  }

  function WithdrawAll(bs: seq<Baseline>): seq<Baseline> {
    seq(|bs|, i requires 0 <= i < |bs| => Withdraw(bs[i]))
  }

  /** The version replaces whichever was approved before; its author may not approve it. */
  function ApproveBaseline(l: Ledger, i: nat, approver: Id): (Ledger, CostReply) {
    if i >= |l.baselines| then (l, BaselineNotFound)
    else if l.baselines[i].status == BaselineApproved then (l, BaselineApprovedAlready)
    else if approver == l.baselines[i].author then (l, SelfApproval)
    else (l.(baselines := WithdrawAll(l.baselines)[i := l.baselines[i].(status := BaselineApproved, approvedBy := Some(approver))]), Done)
  }

  /** At most one version is approved, and never by its author. */
  predicate BaselinesSound(bs: seq<Baseline>) {
    && (forall i | 0 <= i < |bs| && bs[i].status == BaselineApproved :: bs[i].approvedBy.Some? && bs[i].approvedBy.value != bs[i].author)
    && (forall i, j | 0 <= i < j < |bs| :: bs[i].status != BaselineApproved || bs[j].status != BaselineApproved)
  }

  lemma {:induction false} ApprovedIs(bs: seq<Baseline>, i: nat)
    requires BaselinesSound(bs) && i < |bs| && bs[i].status == BaselineApproved
    ensures ApprovedBaseline(bs) == Some(i)
  {
    var last := |bs| - 1;
    if i < last { ApprovedIs(bs[..last], i); }
  }

  /** An approved version becomes the only one in force, under someone else's signature; its lines are those drafted. */
  lemma ApprovalInForce(l: Ledger, i: nat, approver: Id)
    requires BaselinesSound(l.baselines) && ApproveBaseline(l, i, approver).1 == Done
    ensures var after := ApproveBaseline(l, i, approver).0;
            && BaselinesSound(after.baselines)
            && ApprovedBaseline(after.baselines) == Some(i)
            && after.baselines[i].author != approver
            && |after.baselines| == |l.baselines| && forall j | 0 <= j < |l.baselines| :: after.baselines[j].lines == l.baselines[j].lines
  {
    ApprovedIs(ApproveBaseline(l, i, approver).0.baselines, i);
  }

  lemma DraftKeeps(l: Ledger, author: Id, currency: string, lines: seq<BudgetLine>)
    requires BaselinesSound(l.baselines)
    ensures var after := CreateBaseline(l, author, currency, lines).0;
            BaselinesSound(after.baselines) && ApprovedBaseline(after.baselines) == ApprovedBaseline(l.baselines)
  {
    var after := CreateBaseline(l, author, currency, lines).0;
    if after != l { assert after.baselines[..|l.baselines|] == l.baselines; }
  }

  // ---------------------------------------------------------------- deliverables

  function LinkIndex(links: seq<Link>, p: Id): (r: Option<nat>)
    ensures r.Some? ==> r.value < |links| && links[r.value].product == p
    ensures r.None? ==> forall i | 0 <= i < |links| :: links[i].product != p
  {
    if links == [] then None
    else if links[|links| - 1].product == p then Some(|links| - 1)
    else LinkIndex(links[..|links| - 1], p)
  }

  /** A product counts in one phase only: linking it again moves it there, with the new weight. */
  function LinkDeliverable(l: Ledger, link: Link): (Ledger, CostReply) {
    if !HasPhase(l, link.phase) || link.product !in l.statuses || link.weight == 0 then (l, LinkInvalid)
    else
      var i := LinkIndex(l.links, link.product);
      (l.(links := if i.Some? then l.links[i.value := link] else l.links + [link]), Done)
  }

  predicate LinksDistinct(links: seq<Link>) {
    forall i, j | 0 <= i < j < |links| :: links[i].product != links[j].product
  }

  /** After linking, the product weighs in the named phase and in no other; the other links are as before. */
  lemma LinkMoves(l: Ledger, link: Link)
    requires LinksDistinct(l.links) && LinkDeliverable(l, link).1 == Done
    ensures var after := LinkDeliverable(l, link).0;
            && LinksDistinct(after.links)
            && link in after.links
            && (forall other: Link | other.product == link.product :: other in after.links ==> other == link)
            && (forall other: Link | other.product != link.product :: other in after.links <==> other in l.links)
  {
    var after := LinkDeliverable(l, link).0;
    var found := LinkIndex(l.links, link.product);
    var i := if found.Some? then found.value else |l.links|;
    assert after.links[i] == link;
    forall other: Link | other.product != link.product && other in l.links ensures other in after.links {
      var j :| 0 <= j < |l.links| && l.links[j] == other;
      assert after.links[j] == other;
    }
  }

  // ---------------------------------------------------------------- the store

  class CostStore {
    const project: Id
    const generation: nat
    var phases: seq<Schedule>
    var work: seq<WorkRecord>
    var expenses: seq<Expense>
    var rates: seq<LaborRate>
    var baselines: seq<Baseline>
    var links: seq<Link>
    var statuses: map<Id, Status>

    constructor (l: Ledger)
      ensures Rows() == l
    {
      project, generation, phases, work, expenses := l.project, l.generation, l.phases, l.work, l.expenses;
      rates, baselines, links, statuses := l.rates, l.baselines, l.links, l.statuses;
    }

    function Rows(): Ledger
      reads this
    {
      Ledger(project, generation, phases, work, expenses, rates, baselines, links, statuses)
    }

    method SetLaborRate(rate: LaborRate) returns (reply: CostReply)
      modifies this`rates
      ensures var accepted := LaborRates.SetLaborRate(old(rates), rate);
              if accepted.RateSet? then reply == Done && rates == accepted.rates
              else reply == RateRefused(accepted) && rates == old(rates)
    {
      if !CurrencyCode(rate.currency) { return RateRefused(RateCurrencyInvalid); }
      if !ValidPeriod(rate) { return RateRefused(RatePeriodInvalid); }
      for i := 0 to |rates|
        invariant forall j | 0 <= j < i :: !Overlap(rates[j], rate)
      {
        if Overlap(rates[i], rate) { return RateRefused(RateOverlap); }
      }
      rates := rates + [rate];
      return Done;
    }

    method CreateCostBaseline(author: Id, currency: string, lines: seq<BudgetLine>) returns (reply: CostReply)
      modifies this`baselines
      ensures (Rows(), reply) == CreateBaseline(old(Rows()), author, currency, lines)
    {
      if !CurrencyCode(currency) { return CurrencyInvalid; }
      var before, index := baselines, |baselines|;
      baselines := baselines + [Baseline(currency, BaselineDraft, author, None, [])];
      for i := 0 to |lines|
        invariant baselines == before + [Baseline(currency, BaselineDraft, author, None, lines[..i])]
        invariant forall j | 0 <= j < i :: LineFits(old(Rows()), lines, j)
      {
        if !LineFits(Rows(), lines, i) {
          assert !LineFits(old(Rows()), lines, i);
          baselines := before;
          return LineInvalid;
        }
        assert lines[..i + 1] == lines[..i] + [lines[i]];
        var row := baselines[index];
        baselines := baselines[index := row.(lines := row.lines + [lines[i]])];
      }
      assert lines[..|lines|] == lines;
      return Done;
    }

    method ApproveCostBaseline(i: nat, approver: Id) returns (reply: CostReply)
      modifies this`baselines
      ensures (Rows(), reply) == ApproveBaseline(old(Rows()), i, approver)
    {
      if i >= |baselines| { return BaselineNotFound; }
      if baselines[i].status == BaselineApproved { return BaselineApprovedAlready; }
      if approver == baselines[i].author { return SelfApproval; }
      baselines := WithdrawAll(baselines);
      baselines := baselines[i := baselines[i].(status := BaselineApproved, approvedBy := Some(approver))];
      return Done;
    }

    method LinkPhaseDeliverable(link: Link) returns (reply: CostReply)
      modifies this`links
      ensures (Rows(), reply) == LinkDeliverable(old(Rows()), link)
    {
      if !HasPhase(Rows(), link.phase) || link.product !in statuses || link.weight == 0 { return LinkInvalid; }
      var i := LinkIndex(links, link.product);
      links := if i.Some? then links[i.value := link] else links + [link];
      return Done;
    }
  }

  // ---------------------------------------------------------------- what is accepted

  /** A baseline is drafted exactly with a currency of three capital letters and lines that each name a phase of the project and
      a known category, no two the same, with a limit that covers the plan; it is a new draft with these lines. */
  lemma CreateExactly(l: Ledger, author: Id, currency: string, lines: seq<BudgetLine>)
    ensures var (after, reply) := CreateBaseline(l, author, currency, lines);
            && (reply == Done <==>
                  && |currency| == 3 && (forall i | 0 <= i < 3 :: 'A' <= currency[i] <= 'Z')
                  && (forall i | 0 <= i < |lines| ::
                        && (exists j | 0 <= j < |l.phases| :: l.phases[j].key == lines[i].phase) && lines[i].planned <= lines[i].limit
                        && lines[i].category in {"labor", "hardware_prototypes", "tooling_nre", "software_licenses", "testing_services", "contingency"})
                  && (forall i, j | 0 <= i < j < |lines| :: lines[i].phase != lines[j].phase || lines[i].category != lines[j].category))
            && after == if reply == Done then l.(baselines := l.baselines + [Baseline(currency, BaselineDraft, author, None, lines)]) else l
  {
    forall j | 0 <= j < |lines|
      ensures LineFits(l, lines, j) <==>
              && HasPhase(l, lines[j].phase) && lines[j].planned <= lines[j].limit
              && lines[j].category in {"labor", "hardware_prototypes", "tooling_nre", "software_licenses", "testing_services", "contingency"}
              && forall i | 0 <= i < j :: lines[i].phase != lines[j].phase || lines[i].category != lines[j].category
    {
    }
  }

  /** A version is approved exactly by someone other than its author, if it is not approved already; the one approved before is
      superseded, and nothing else changes. */
  lemma ApproveExactly(l: Ledger, i: nat, approver: Id)
    ensures var (after, reply) := ApproveBaseline(l, i, approver);
            && (reply == Done <==> i < |l.baselines| && l.baselines[i].status != BaselineApproved && l.baselines[i].author != approver)
            && (reply != Done ==> after == l)
            && (reply == Done ==>
                  && after == l.(baselines := after.baselines) && |after.baselines| == |l.baselines|
                  && after.baselines[i] == l.baselines[i].(status := BaselineApproved, approvedBy := Some(approver))
                  && forall j | 0 <= j < |l.baselines| && j != i ::
                       after.baselines[j] == if l.baselines[j].status == BaselineApproved
                                             then l.baselines[j].(status := BaselineSuperseded, approvedBy := None) else l.baselines[j])
  {
  }

  /** A product is linked exactly with a weight above nothing to a phase of the project, if it exists. */
  lemma LinkExactly(l: Ledger, link: Link)
    ensures LinkDeliverable(l, link).1 == Done <==>
            link.weight > 0 && link.product in l.statuses && exists j | 0 <= j < |l.phases| :: l.phases[j].key == link.phase
    ensures LinkDeliverable(l, link).0 == l.(links := LinkDeliverable(l, link).0.links)
  {
  }
}
