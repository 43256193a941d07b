/**
 Earned value of a project at a control date: planned value spread over the calendar of each phase, actual cost by the
 rate in force on the day of the work, earned value by the deliverables that are approved (all or nothing each).
 Money is in cents; a labour cost is first exact, in hundredths of a cent, and each phase value is rounded once.
 */
module EarnedValue {
  import opened Wrappers
  import opened Review
  import opened PhaseGraph
  import opened Plan
  import opened LaborRates

  datatype Schedule = Schedule(key: Key, start: Option<int>, finish: Option<int>)

  datatype BudgetLine = BudgetLine(phase: Key, category: string, planned: nat, limit: nat)

  datatype BaselineStatus = BaselineDraft | BaselineApproved | BaselineSuperseded

  /** Versions are numbered by their position, from 1. */
  datatype Baseline = Baseline(currency: string, status: BaselineStatus, author: Id, approvedBy: Option<Id>, lines: seq<BudgetLine>)

  /** The weight a work product has among the deliverables of its phase. */
  datatype Link = Link(phase: Key, product: Id, weight: nat)

  /** The tables the computation reads, for one project. */
  datatype Ledger = Ledger(project: Id, generation: nat, phases: seq<Schedule>, work: seq<WorkRecord>, expenses: seq<Expense>,
                           rates: seq<LaborRate>, baselines: seq<Baseline>, links: seq<Link>, statuses: map<Id, Status>)

  // ---------------------------------------------------------------- rounding

  /** n / d to the nearest whole, halves away from zero. */
  function Round(n: nat, d: nat): (r: nat)
    requires d > 0
    ensures 2 * n < 2 * d * r + d && 2 * d * r <= 2 * n + d
  {
    (2 * n + d) / (2 * d)
  }

  lemma RoundMonotone(m: nat, n: nat, d: nat)
    requires m <= n && d > 0
    ensures Round(m, d) <= Round(n, d)
  {
    ProductOrder(Round(n, d) + 1, Round(m, d), 2 * d);
    assert (Round(n, d) + 1) * (2 * d) == 2 * d * Round(n, d) + 2 * d;
    assert Round(m, d) * (2 * d) == 2 * d * Round(m, d);
  }

  lemma RoundWhole(k: nat, d: nat)
    requires d > 0
    ensures Round(k * d, d) == k
  {
    var r := Round(k * d, d);
    ProductOrder(r + 1, k, 2 * d);
    ProductOrder(k + 1, r, 2 * d);
    assert (r + 1) * (2 * d) == 2 * d * r + 2 * d && (k + 1) * (2 * d) == 2 * (k * d) + 2 * d;
    assert r * (2 * d) == 2 * d * r && k * (2 * d) == 2 * (k * d);
  }

  /** A share n/d <= 1 of a whole amount, rounded, stays within it. */
  lemma ShareWithin(amount: nat, n: nat, d: nat)
    requires 0 < d && n <= d
    ensures Round(amount * n, d) <= amount
  {
    assert amount * n <= amount * d;
    RoundMonotone(amount * n, amount * d, d);
    RoundWhole(amount, d);
  }

  lemma ShareMonotone(amount: nat, m: nat, n: nat, d: nat)
    requires 0 < d && m <= n
    ensures Round(amount * m, d) <= Round(amount * n, d)
  {
    assert amount * m <= amount * n;
    RoundMonotone(amount * m, amount * n, d);
  }

  // ---------------------------------------------------------------- grouped sums

  datatype Amount = Amount(phase: Key, value: nat)

  /** Sum of the rows of one phase. */
  function SumWhere(rows: seq<Amount>, k: Key): nat {
    if rows == [] then 0 else SumWhere(rows[..|rows| - 1], k) + if rows[|rows| - 1].phase == k then rows[|rows| - 1].value else 0
  }

  function Sum(rows: seq<Amount>): nat {
    if rows == [] then 0 else Sum(rows[..|rows| - 1]) + rows[|rows| - 1].value
  }

  /** The sums of all phases that have rows. */
  function GroupSum(rows: seq<Amount>): map<Key, nat> {
    if rows == [] then map[]
    else
      var before, last := GroupSum(rows[..|rows| - 1]), rows[|rows| - 1];
      before[last.phase := last.value + if last.phase in before then before[last.phase] else 0]
  }

  function Grouped(sums: map<Key, nat>, k: Key): Option<nat> {
    if k in sums then Some(sums[k]) else None
  }

  function OrZero(o: Option<nat>): nat {
    if o.Some? then o.value else 0
  }

  lemma {:induction false} GroupedIsFiltered(rows: seq<Amount>, k: Key)
    ensures OrZero(Grouped(GroupSum(rows), k)) == SumWhere(rows, k)
    ensures k in GroupSum(rows) <==> exists i | 0 <= i < |rows| :: rows[i].phase == k
  {
    if rows != [] {
      GroupedIsFiltered(rows[..|rows| - 1], k);
      var last := |rows| - 1;
      if i :| 0 <= i < last && rows[i].phase == k { assert rows[..last][i].phase == k; }
      if rows[last].phase == k { assert exists i | 0 <= i < |rows| :: rows[i].phase == k; }
    }
  }

  lemma {:induction false} SumWhereWithin(rows: seq<Amount>, k: Key)
    ensures SumWhere(rows, k) <= Sum(rows)
  {
    if rows != [] { SumWhereWithin(rows[..|rows| - 1], k); }
  }

  // ---------------------------------------------------------------- actual cost

  function Priced(l: Ledger, w: WorkRecord): Option<LaborRate> {
    RateFor(l.rates, l.project, w.role, w.date)
  }

  /** Hundredths of an hour at cents per hour: hundredths of a cent. Work without a rate counts as nothing. */
  function LaborCost(l: Ledger, w: WorkRecord): nat {
    var rate := Priced(l, w);
    if rate.Some? then w.hundredths * rate.value.cents else 0
  }

  function LaborCosts(l: Ledger, work: seq<WorkRecord>, asOf: int): seq<Amount> {
    if work == [] then []
    else
      var last := work[|work| - 1];
      LaborCosts(l, work[..|work| - 1], asOf) + if last.date <= asOf then [Amount(last.phase, LaborCost(l, last))] else []
  }

  function ExpenseCosts(expenses: seq<Expense>, asOf: int): seq<Amount> {
    if expenses == [] then []
    else
      var last := expenses[|expenses| - 1];
      ExpenseCosts(expenses[..|expenses| - 1], asOf) + if last.date <= asOf then [Amount(last.phase, 100 * last.amount)] else []
  }

  function Costs(l: Ledger, asOf: int): seq<Amount> {
    LaborCosts(l, l.work, asOf) + ExpenseCosts(l.expenses, asOf)
  }

  /** Actual cost of a phase up to the date, in hundredths of a cent. */
  function ExactCost(l: Ledger, k: Key, asOf: int): nat {
    OrZero(Grouped(GroupSum(Costs(l, asOf)), k))
  }

  // ---------------------------------------------------------------- validation of the cost inputs

  predicate MissingRate(l: Ledger, w: WorkRecord, asOf: int) {
    w.date <= asOf && Priced(l, w).None?
  }

  predicate ForeignRate(l: Ledger, w: WorkRecord, asOf: int, currency: string) {
    w.date <= asOf && Priced(l, w).Some? && Priced(l, w).value.currency != currency
  }

  predicate ForeignExpense(e: Expense, asOf: int, currency: string) {
    e.date <= asOf && e.currency != currency
  }

  datatype CostProblems = CostProblems(missingRates: nat, foreignRates: nat, foreignExpenses: nat)

  /** Every cost up to the date has a price, and in the currency of the baseline. */
  ghost predicate CostsComplete(l: Ledger, currency: string, asOf: int) {
    && (forall i | 0 <= i < |l.work| && l.work[i].date <= asOf ::
          Priced(l, l.work[i]).Some? && Priced(l, l.work[i]).value.currency == currency)
    && (forall i | 0 <= i < |l.expenses| && l.expenses[i].date <= asOf :: l.expenses[i].currency == currency)
  }

  /** Counts the problems; there are none exactly when the costs are complete. */
  method CountCostProblems(l: Ledger, currency: string, asOf: int) returns (problems: CostProblems)
    ensures problems == CostProblems(0, 0, 0) <==> CostsComplete(l, currency, asOf)
    ensures problems.missingRates == 0 <==> forall i | 0 <= i < |l.work| :: !MissingRate(l, l.work[i], asOf)
  {
    var missing, foreign, expenses := 0, 0, 0;
    for i := 0 to |l.work|
      invariant missing == 0 <==> forall j | 0 <= j < i :: !MissingRate(l, l.work[j], asOf)
      invariant foreign == 0 <==> forall j | 0 <= j < i :: !ForeignRate(l, l.work[j], asOf, currency)
    {
      if MissingRate(l, l.work[i], asOf) { missing := missing + 1; }
      if ForeignRate(l, l.work[i], asOf, currency) { foreign := foreign + 1; }
    }
    for i := 0 to |l.expenses|
      invariant expenses == 0 <==> forall j | 0 <= j < i :: !ForeignExpense(l.expenses[j], asOf, currency)
    {
      if ForeignExpense(l.expenses[i], asOf, currency) { expenses := expenses + 1; }
    }
    problems := CostProblems(missing, foreign, expenses);
    if missing == 0 && foreign == 0 {
      forall i | 0 <= i < |l.work| && l.work[i].date <= asOf
        ensures Priced(l, l.work[i]).Some? && Priced(l, l.work[i]).value.currency == currency
      {
        assert !MissingRate(l, l.work[i], asOf) && !ForeignRate(l, l.work[i], asOf, currency);
      }
    }
    if expenses == 0 {
      assert forall i | 0 <= i < |l.expenses| :: !ForeignExpense(l.expenses[i], asOf, currency);
    }
  }

  /** The labour costs up to the date without any default: none at all if a rate is missing. */
  function PricedCosts(l: Ledger, work: seq<WorkRecord>, asOf: int): Option<seq<Amount>> {
    if work == [] then Some([])
    else
      var before, last := PricedCosts(l, work[..|work| - 1], asOf), work[|work| - 1];
      if before.None? || last.date > asOf then before
      else if Priced(l, last).None? then None
      else Some(before.value + [Amount(last.phase, last.hundredths * Priced(l, last).value.cents)])
  }

  /** When the cost inputs are complete, the sum takes every labour cost from a rate that exists: the default is never used. */
  lemma {:induction false} DefaultNeverUsed(l: Ledger, work: seq<WorkRecord>, asOf: int)
    requires forall i | 0 <= i < |work| :: !MissingRate(l, work[i], asOf)
    ensures PricedCosts(l, work, asOf) == Some(LaborCosts(l, work, asOf))
  {
    if work != [] {
      var rest := work[..|work| - 1];
      DefaultNeverUsed(l, rest, asOf);
      assert LaborCosts(l, rest, asOf) + [] == LaborCosts(l, rest, asOf);
      assert !MissingRate(l, work[|work| - 1], asOf);
    }
  }

  /** So a successful validation means: every cost in the sum has a price of its own, in the baseline's currency. */
  lemma CompleteCostsArePriced(l: Ledger, currency: string, asOf: int)
    requires CostsComplete(l, currency, asOf)
    ensures PricedCosts(l, l.work, asOf) == Some(LaborCosts(l, l.work, asOf))
    ensures forall i | 0 <= i < |l.work| && l.work[i].date <= asOf ::
              Priced(l, l.work[i]).Some? && Priced(l, l.work[i]).value.currency == currency
              && LaborCost(l, l.work[i]) == l.work[i].hundredths * Priced(l, l.work[i]).value.cents
  {
    forall i | 0 <= i < |l.work| ensures !MissingRate(l, l.work[i], asOf) {
      assert l.work[i].date <= asOf ==> Priced(l, l.work[i]).Some?;
    }
    DefaultNeverUsed(l, l.work, asOf);
  }

  // ---------------------------------------------------------------- planned value

  /** The planned amount spread evenly over the days of the phase. */
  function PlannedValue(planned: nat, s: Schedule, asOf: int): nat {
    if s.start.None? || s.finish.None? then 0
    else if asOf < s.start.value then 0
    else if asOf >= s.finish.value then planned
    else Round(planned * (asOf - s.start.value), s.finish.value - s.start.value)
  }

  predicate Dated(s: Schedule) {
    s.start.Some? && s.finish.Some? && s.start.value <= s.finish.value
  }

  /** Within the plan at every date, and all of it from the finish on. */
  lemma PlannedValueBounds(planned: nat, s: Schedule, asOf: int)
    ensures 0 <= PlannedValue(planned, s, asOf) <= planned
    ensures Dated(s) && asOf >= s.finish.value ==> PlannedValue(planned, s, asOf) == planned
    ensures Dated(s) && asOf <= s.start.value && s.start.value < s.finish.value ==> PlannedValue(planned, s, asOf) == 0
  {
    if s.start.Some? && s.finish.Some? && s.start.value <= asOf < s.finish.value {
      ShareWithin(planned, asOf - s.start.value, s.finish.value - s.start.value);
    }
  }

  /** Never less at a later date. */
  lemma PlannedValueMonotone(planned: nat, s: Schedule, earlier: int, later: int)
    requires earlier <= later
    ensures PlannedValue(planned, s, earlier) <= PlannedValue(planned, s, later)
  {
    PlannedValueBounds(planned, s, earlier);
    PlannedValueBounds(planned, s, later);
    if s.start.Some? && s.finish.Some? && s.start.value <= earlier && later < s.finish.value {
      ShareMonotone(planned, earlier - s.start.value, later - s.start.value, s.finish.value - s.start.value);
    }
  }

  // ---------------------------------------------------------------- earned value

  predicate IsApproved(l: Ledger, p: Id) {
    p in l.statuses && l.statuses[p] == Approved
  }

  function Weights(l: Ledger, links: seq<Link>, approvedOnly: bool): seq<Amount> {
    if links == [] then []
    else
      var last := links[|links| - 1];
      Weights(l, links[..|links| - 1], approvedOnly)
      + if last.product in l.statuses && (approvedOnly ==> IsApproved(l, last.product)) then [Amount(last.phase, last.weight)] else []
  }

  /** The share of approved weight in the total weight; nothing when either sum is missing or the total is zero. */
  function EarnedShare(planned: nat, earned: Option<nat>, total: Option<nat>): nat {
    if earned.None? || total.None? || total.value == 0 then 0 else Round(planned * earned.value, total.value)
  }

  lemma LastWeight(l: Ledger, links: seq<Link>, approvedOnly: bool, k: Key)
    requires links != []
    ensures var rest, last := links[..|links| - 1], links[|links| - 1];
            SumWhere(Weights(l, links, approvedOnly), k)
            == SumWhere(Weights(l, rest, approvedOnly), k)
               + if last.phase == k && last.product in l.statuses && (approvedOnly ==> IsApproved(l, last.product)) then last.weight else 0
  {
    var rest, last := links[..|links| - 1], links[|links| - 1];
    SumWhereAppend(Weights(l, rest, approvedOnly), Amount(last.phase, last.weight), k);
    assert Weights(l, rest, approvedOnly) + [] == Weights(l, rest, approvedOnly);
  }

  lemma {:induction false} ApprovedWithinTotal(l: Ledger, links: seq<Link>, k: Key)
    ensures SumWhere(Weights(l, links, true), k) <= SumWhere(Weights(l, links, false), k)
  {
    if links != [] {
      var rest, last := links[..|links| - 1], links[|links| - 1];
      ApprovedWithinTotal(l, rest, k);
      LastWeight(l, links, true, k);
      LastWeight(l, links, false, k);
    }
  }

  lemma SumWhereAppend(rows: seq<Amount>, a: Amount, k: Key)
    ensures SumWhere(rows + [a], k) == SumWhere(rows, k) + if a.phase == k then a.value else 0
  {
    assert (rows + [a])[..|rows|] == rows;
  }

  // ---------------------------------------------------------------- the snapshot

  datatype PhaseValues = PhaseValues(key: Key, planned: nat, limit: nat, pv: nat, ac: nat, ev: nat, overLimit: bool)

  datatype Snapshot = Snapshot(currency: string, version: nat, phases: seq<PhaseValues>, bac: nat, pv: nat, ac: nat, ev: nat,
                               cv: int, sv: int, cpi: Option<nat>, spi: Option<nat>, eac: Option<nat>)

  datatype EvmReply = Computed(snapshot: Snapshot) | NoBaseline | IncompleteCosts

  function PlannedRows(lines: seq<BudgetLine>): (rows: seq<Amount>)
    ensures |rows| == |lines|
    ensures forall i | 0 <= i < |lines| :: rows[i] == Amount(lines[i].phase, lines[i].planned)
  {
    seq(|lines|, i requires 0 <= i < |lines| => Amount(lines[i].phase, lines[i].planned))
  }

  function LimitRows(lines: seq<BudgetLine>): seq<Amount> {
    seq(|lines|, i requires 0 <= i < |lines| => Amount(lines[i].phase, lines[i].limit))
  }

  /** The version in force: the schema allows one approved baseline. */
  function ApprovedBaseline(baselines: seq<Baseline>): (r: Option<nat>)
    ensures r.Some? ==> r.value < |baselines| && baselines[r.value].status == BaselineApproved
    ensures r.None? ==> forall i | 0 <= i < |baselines| :: baselines[i].status != BaselineApproved
  {
    if baselines == [] then None
    else if baselines[|baselines| - 1].status == BaselineApproved then Some(|baselines| - 1)
    else ApprovedBaseline(baselines[..|baselines| - 1])
  }

  function Cents(exact: nat): nat {
    Round(exact, 100)
  }

  /** One row of the main query: the phase joined with the grouped budget, costs and progress. */
  function PhaseRowValues(l: Ledger, lines: seq<BudgetLine>, s: Schedule, asOf: int): PhaseValues {
    var planned := OrZero(Grouped(GroupSum(PlannedRows(lines)), s.key));
    PhaseValues(s.key, planned,
                OrZero(Grouped(GroupSum(LimitRows(lines)), s.key)),
                PlannedValue(planned, s, asOf),
                Cents(ExactCost(l, s.key, asOf)),
                EarnedShare(planned, Grouped(GroupSum(Weights(l, l.links, true)), s.key), Grouped(GroupSum(Weights(l, l.links, false)), s.key)),
                false)
  }

  function PhaseRows(l: Ledger, lines: seq<BudgetLine>, asOf: int): seq<PhaseValues> {
    seq(|l.phases|, i requires 0 <= i < |l.phases| => PhaseRowValues(l, lines, l.phases[i], asOf))
  }

  predicate ExceedsLimit(ac: nat, limit: nat) {
    ac > limit > 0
  }

  function MarkLimit(p: PhaseValues): PhaseValues {
    p.(overLimit := ExceedsLimit(p.ac, p.limit))
  }

  function MarkLimits(ps: seq<PhaseValues>): seq<PhaseValues> {
    seq(|ps|, i requires 0 <= i < |ps| => MarkLimit(ps[i]))
  }

  function TotalPv(ps: seq<PhaseValues>): nat {
    if ps == [] then 0 else TotalPv(ps[..|ps| - 1]) + ps[|ps| - 1].pv
  }

  function TotalAc(ps: seq<PhaseValues>): nat {
    if ps == [] then 0 else TotalAc(ps[..|ps| - 1]) + ps[|ps| - 1].ac
  }

  function TotalEv(ps: seq<PhaseValues>): nat {
    if ps == [] then 0 else TotalEv(ps[..|ps| - 1]) + ps[|ps| - 1].ev
  }

  /** A ratio to four decimals, in ten-thousandths; none for a zero denominator. */
  function Index(n: nat, d: nat): Option<nat> {
    if d == 0 then None else Some(Round(10000 * n, d))
  }

  /** Estimate at completion; none without earned value, or without cost. */
  function Estimate(bac: nat, ev: nat, ac: nat): Option<nat> {
    if ev == 0 || ac == 0 then None else Some(Round(bac * ac, ev))
  }

  function Aggregated(currency: string, version: nat, ps: seq<PhaseValues>, bac: nat): Snapshot {
    var pv, ac, ev := TotalPv(ps), TotalAc(ps), TotalEv(ps);
    Snapshot(currency, version, MarkLimits(ps), bac, pv, ac, ev, ev - ac, ev - pv, Index(ev, ac), Index(ev, pv), Estimate(bac, ev, ac))
  }

  ghost function Evm(l: Ledger, asOf: int): EvmReply {
    var approved := ApprovedBaseline(l.baselines);
    if approved.None? then NoBaseline
    else
      var b := l.baselines[approved.value];
      if !CostsComplete(l, b.currency, asOf) then IncompleteCosts
      else Computed(Aggregated(b.currency, approved.value + 1, PhaseRows(l, b.lines, asOf), Sum(PlannedRows(b.lines))))
  }

  method Aggregate(currency: string, version: nat, ps: seq<PhaseValues>, bac: nat) returns (snapshot: Snapshot)
    ensures snapshot == Aggregated(currency, version, ps, bac)
  {
    var pv, ac, ev := 0, 0, 0;
    for i := 0 to |ps|
      invariant pv == TotalPv(ps[..i]) && ac == TotalAc(ps[..i]) && ev == TotalEv(ps[..i])
    {
      assert ps[..i + 1][..i] == ps[..i];
      pv, ac, ev := pv + ps[i].pv, ac + ps[i].ac, ev + ps[i].ev;
    }
    assert ps[..|ps|] == ps;
    var phases := ps;
    for i := 0 to |phases|
      invariant |phases| == |ps|
      invariant forall j | 0 <= j < |ps| :: phases[j] == if j < i then MarkLimit(ps[j]) else ps[j]
    {
      phases := phases[i := phases[i].(overLimit := ExceedsLimit(phases[i].ac, phases[i].limit))];
    }
    assert phases == MarkLimits(ps);
    snapshot := Snapshot(currency, version, phases, bac, pv, ac, ev, ev - ac, ev - pv, Index(ev, ac), Index(ev, pv), Estimate(bac, ev, ac));
  }

  method ComputeEarnedValue(l: Ledger, asOf: int) returns (reply: EvmReply)
    ensures reply == Evm(l, asOf)
  {
    var approved := ApprovedBaseline(l.baselines);
    if approved.None? { return NoBaseline; }
    var b := l.baselines[approved.value];
    var problems := CountCostProblems(l, b.currency, asOf);
    if problems != CostProblems(0, 0, 0) { return IncompleteCosts; }
    var rows: seq<PhaseValues> := [];
    for i := 0 to |l.phases|
      invariant |rows| == i && forall j | 0 <= j < i :: rows[j] == PhaseRowValues(l, b.lines, l.phases[j], asOf)
    {
      rows := rows + [PhaseRowValues(l, b.lines, l.phases[i], asOf)];
    }
    assert rows == PhaseRows(l, b.lines, asOf);
    var snapshot := Aggregate(b.currency, approved.value + 1, rows, Sum(PlannedRows(b.lines)));
    return Computed(snapshot);
  }

  // ---------------------------------------------------------------- what a snapshot promises

  /** Every phase: planned and earned value lie between nothing and the phase's budget. */
  lemma PhaseBounds(l: Ledger, lines: seq<BudgetLine>, s: Schedule, asOf: int)
    ensures var p := PhaseRowValues(l, lines, s, asOf);
            && p.planned == SumWhere(PlannedRows(lines), s.key) <= Sum(PlannedRows(lines))
            && p.pv <= p.planned && p.ev <= p.planned
            && (Dated(s) && asOf >= s.finish.value ==> p.pv == p.planned)
  {
    var planned := OrZero(Grouped(GroupSum(PlannedRows(lines)), s.key));
    GroupedIsFiltered(PlannedRows(lines), s.key);
    SumWhereWithin(PlannedRows(lines), s.key);
    PlannedValueBounds(planned, s, asOf);
    EarnedWithin(l, planned, s.key);
  }

  lemma EarnedWithin(l: Ledger, planned: nat, k: Key)
    ensures EarnedShare(planned, Grouped(GroupSum(Weights(l, l.links, true)), k), Grouped(GroupSum(Weights(l, l.links, false)), k)) <= planned
  {
    var earned, total := Grouped(GroupSum(Weights(l, l.links, true)), k), Grouped(GroupSum(Weights(l, l.links, false)), k);
    GroupedIsFiltered(Weights(l, l.links, true), k);
    GroupedIsFiltered(Weights(l, l.links, false), k);
    ApprovedWithinTotal(l, l.links, k);
    if earned.Some? && total.Some? && total.value > 0 { ShareWithin(planned, earned.value, total.value); }
  }

  lemma {:induction false} AllApprovedWeighsAll(l: Ledger, links: seq<Link>, k: Key)
    requires forall i | 0 <= i < |links| && links[i].phase == k && links[i].product in l.statuses :: IsApproved(l, links[i].product)
    ensures SumWhere(Weights(l, links, true), k) == SumWhere(Weights(l, links, false), k)
  {
    if links != [] {
      var rest, last := links[..|links| - 1], links[|links| - 1];
      AllApprovedWeighsAll(l, rest, k);
      LastWeight(l, links, true, k);
      LastWeight(l, links, false, k);
    }
  }

  /** A phase whose deliverables are all approved has earned its whole budget. */
  lemma AllApprovedEarnsAll(l: Ledger, lines: seq<BudgetLine>, s: Schedule, asOf: int)
    requires forall i | 0 <= i < |l.links| && l.links[i].phase == s.key && l.links[i].product in l.statuses :: IsApproved(l, l.links[i].product)
    requires SumWhere(Weights(l, l.links, false), s.key) > 0
    ensures var p := PhaseRowValues(l, lines, s, asOf); p.ev == p.planned
  {
    GroupedIsFiltered(Weights(l, l.links, true), s.key);
    GroupedIsFiltered(Weights(l, l.links, false), s.key);
    AllApprovedWeighsAll(l, l.links, s.key);
    var planned := OrZero(Grouped(GroupSum(PlannedRows(lines)), s.key));
    RoundWhole(planned, SumWhere(Weights(l, l.links, false), s.key));
  }

  // ---------------------------------------------------------------- totals and rounding

  /** The exact planned, actual and earned value of a phase, in cents. */
  datatype Exact = Exact(pv: real, ac: real, ev: real)

  function Fraction(n: int, d: int): real
    requires d != 0
  {
    n as real / d as real
  }

  function ExactPlanned(planned: nat, s: Schedule, asOf: int): real {
    if s.start.None? || s.finish.None? || asOf < s.start.value then 0.0
    else if asOf >= s.finish.value then planned as real
    else Fraction(planned * (asOf - s.start.value), s.finish.value - s.start.value)
  }

  function ExactEarned(planned: nat, earned: nat, total: nat): real {
    if total == 0 then 0.0 else Fraction(planned * earned, total)
  }

  function ExactValues(l: Ledger, lines: seq<BudgetLine>, s: Schedule, asOf: int): Exact {
    var planned := SumWhere(PlannedRows(lines), s.key);
    Exact(ExactPlanned(planned, s, asOf),
          Fraction(SumWhere(Costs(l, asOf), s.key), 100),
          ExactEarned(planned, SumWhere(Weights(l, l.links, true), s.key), SumWhere(Weights(l, l.links, false), s.key)))
  }

  /** Within half a cent. */
  predicate Near(cents: int, exact: real, halves: nat) {
    -(halves as real) / 2.0 <= cents as real - exact <= halves as real / 2.0
  }

  lemma PositiveProduct(a: real, w: real)
    requires w > 0.0
    ensures a > 0.0 ==> a * w > 0.0
  {
  }

  lemma Distribute(a: real, b: real, w: real)
    ensures (a - b) * w == a * w - b * w
  {
  }

  lemma AtMostHalf(d: real, w: real, p: real)
    requires w > 0.0 && p == d * w && p + p <= w
    ensures d <= 0.5
  {
    PositiveProduct(d - 0.5, w);
    Distribute(d, 0.5, w);
  }

  lemma HalfWithin(r: real, x: real, w: real, n: real)
    requires w > 0.0 && x * w == n && -w <= 2.0 * (r * w - n) <= w
    ensures -0.5 <= r - x <= 0.5
  {
    var p, q := r * w - n, n - r * w;
    assert p + p <= w && q + q <= w;
    Distribute(r, x, w);
    Distribute(x, r, w);
    AtMostHalf(r - x, w, p);
    AtMostHalf(x - r, w, q);
  }

  lemma ScaledInts(r: nat, d: nat, n: nat)
    requires 2 * n <= 2 * d * r + d && 2 * d * r <= 2 * n + d
    ensures -(d as real) <= 2.0 * (r as real * d as real - n as real) <= d as real
  {
    assert r as real * d as real == (r * d) as real;
    assert 2 * d * r == 2 * (r * d);
  }

  lemma RoundNear(n: nat, d: nat)
    requires d > 0
    ensures Near(Round(n, d), Fraction(n, d), 1)
  {
    var x, w := Fraction(n, d), d as real;
    assert x * w == n as real;
    ScaledInts(Round(n, d), d, n);
    HalfWithin(Round(n, d) as real, x, w, n as real);
  }

  lemma PlannedNear(planned: nat, s: Schedule, asOf: int)
    ensures Near(PlannedValue(planned, s, asOf), ExactPlanned(planned, s, asOf), 1)
  {
    if s.start.Some? && s.finish.Some? && s.start.value <= asOf < s.finish.value {
      RoundNear(planned * (asOf - s.start.value), s.finish.value - s.start.value);
    }
  }

  /** Grouped sums that are missing count as zero, in the share as in its exact value. */
  lemma EarnedNear(planned: nat, earned: Option<nat>, total: Option<nat>)
    requires OrZero(earned) <= OrZero(total)
    ensures Near(EarnedShare(planned, earned, total), ExactEarned(planned, OrZero(earned), OrZero(total)), 1)
    ensures EarnedShare(planned, earned, total) == if OrZero(total) == 0 then 0 else Round(planned * OrZero(earned), OrZero(total))
  {
    if OrZero(total) > 0 {
      RoundNear(planned * OrZero(earned), OrZero(total));
      RoundWhole(0, OrZero(total));
    }
  }

  /** The grouped sums of a phase are its filtered sums. */
  lemma GroupsAreFilters(l: Ledger, lines: seq<BudgetLine>, k: Key, asOf: int)
    ensures OrZero(Grouped(GroupSum(PlannedRows(lines)), k)) == SumWhere(PlannedRows(lines), k)
    ensures OrZero(Grouped(GroupSum(LimitRows(lines)), k)) == SumWhere(LimitRows(lines), k)
    ensures ExactCost(l, k, asOf) == SumWhere(Costs(l, asOf), k)
    ensures OrZero(Grouped(GroupSum(Weights(l, l.links, true)), k)) == SumWhere(Weights(l, l.links, true), k)
    ensures OrZero(Grouped(GroupSum(Weights(l, l.links, false)), k)) == SumWhere(Weights(l, l.links, false), k)
    ensures SumWhere(Weights(l, l.links, true), k) <= SumWhere(Weights(l, l.links, false), k)
  {
    GroupedIsFiltered(PlannedRows(lines), k);
    GroupedIsFiltered(LimitRows(lines), k);
    GroupedIsFiltered(Costs(l, asOf), k);
    GroupedIsFiltered(Weights(l, l.links, true), k);
    GroupedIsFiltered(Weights(l, l.links, false), k);
    ApprovedWithinTotal(l, l.links, k);
  }

  lemma PhaseNear(l: Ledger, lines: seq<BudgetLine>, s: Schedule, asOf: int)
    ensures var p, e := PhaseRowValues(l, lines, s, asOf), ExactValues(l, lines, s, asOf);
            Near(p.pv, e.pv, 1) && Near(p.ac, e.ac, 1) && Near(p.ev, e.ev, 1)
  {
    GroupsAreFilters(l, lines, s.key, asOf);
    var planned := SumWhere(PlannedRows(lines), s.key);
    PlannedNear(planned, s, asOf);
    RoundNear(SumWhere(Costs(l, asOf), s.key), 100);
    EarnedNear(planned, Grouped(GroupSum(Weights(l, l.links, true)), s.key), Grouped(GroupSum(Weights(l, l.links, false)), s.key));
  }

  function ExactTotals(l: Ledger, lines: seq<BudgetLine>, phases: seq<Schedule>, asOf: int): Exact {
    if phases == [] then Exact(0.0, 0.0, 0.0)
    else
      var before := ExactTotals(l, lines, phases[..|phases| - 1], asOf);
      var last := ExactValues(l, lines, phases[|phases| - 1], asOf);
      Exact(before.pv + last.pv, before.ac + last.ac, before.ev + last.ev)
  }

  /** The project totals are the sums of the rounded phase values, and lie within half a cent per phase of the exact totals. */
  lemma {:induction false} TotalsNear(l: Ledger, lines: seq<BudgetLine>, n: nat, asOf: int)
    requires n <= |l.phases|
    ensures var ps, e := PhaseRows(l, lines, asOf)[..n], ExactTotals(l, lines, l.phases[..n], asOf);
            Near(TotalPv(ps), e.pv, n) && Near(TotalAc(ps), e.ac, n) && Near(TotalEv(ps), e.ev, n)
  {
    if n > 0 {
      var ps := PhaseRows(l, lines, asOf);
      TotalsNear(l, lines, n - 1, asOf);
      PhaseNear(l, lines, l.phases[n - 1], asOf);
      assert ps[..n][..n - 1] == ps[..n - 1];
      assert l.phases[..n][..n - 1] == l.phases[..n - 1];
    }
  }

  lemma SnapshotTotals(l: Ledger, asOf: int)
    requires Evm(l, asOf).Computed?
    ensures var s, b := Evm(l, asOf).snapshot, l.baselines[ApprovedBaseline(l.baselines).value];
            var e := ExactTotals(l, b.lines, l.phases, asOf);
            && Near(s.pv, e.pv, |l.phases|) && Near(s.ac, e.ac, |l.phases|) && Near(s.ev, e.ev, |l.phases|)
            && s.cv == s.ev - s.ac && s.sv == s.ev - s.pv
            && (s.cpi.None? <==> s.ac == 0) && (s.spi.None? <==> s.pv == 0)
            && (s.eac.None? <==> s.ev == 0 || s.ac == 0)
            && (s.eac.Some? && s.ev >= s.ac ==> s.eac.value <= s.bac)
  {
    var s, b := Evm(l, asOf).snapshot, l.baselines[ApprovedBaseline(l.baselines).value];
    TotalsNear(l, b.lines, |l.phases|, asOf);
    assert l.phases[..|l.phases|] == l.phases;
    assert PhaseRows(l, b.lines, asOf)[..|l.phases|] == PhaseRows(l, b.lines, asOf);
    if s.eac.Some? && s.ev >= s.ac { ShareWithin(s.bac, s.ac, s.ev); }
  }

  // ---------------------------------------------------------------- the facts of the phase gate

  datatype GateFacts = GateFacts(ac: nat, limit: nat, cpi: Option<nat>)

  datatype GateReply = Facts(facts: GateFacts, ev: nat) | NotApplicable | FactsIncomplete

  /** A second computation for one phase alone, by filtered sums in place of grouped ones. */
  ghost function PhaseGateFacts(l: Ledger, k: Key, asOf: int): GateReply {
    var approved := ApprovedBaseline(l.baselines);
    if approved.None? then NotApplicable
    else
      var b := l.baselines[approved.value];
      if !CostsComplete(l, b.currency, asOf) then FactsIncomplete
      else
        var ac := Cents(ExactCost(l, k, asOf));
        var total := SumWhere(Weights(l, l.links, false), k);
        var ev := if total == 0 then 0
                  else Round(SumWhere(PlannedRows(b.lines), k) * SumWhere(Weights(l, l.links, true), k), total);
        Facts(GateFacts(ac, SumWhere(LimitRows(b.lines), k), Index(ev, ac)), ev)
  }

  /** The gate and the snapshot agree on every phase: same cost, limit and earned value, so the same verdict on the limit. */
  lemma GateAgreesWithSnapshot(l: Ledger, i: nat, asOf: int)
    requires i < |l.phases| && Evm(l, asOf).Computed?
    ensures var p := Evm(l, asOf).snapshot.phases[i];
            var gate := PhaseGateFacts(l, l.phases[i].key, asOf);
            && gate == Facts(GateFacts(p.ac, p.limit, Index(p.ev, p.ac)), p.ev)
            && p.overLimit == (gate.facts.ac > gate.facts.limit > 0)
  {
    var b := l.baselines[ApprovedBaseline(l.baselines).value];
    var k := l.phases[i].key;
    GroupsAreFilters(l, b.lines, k, asOf);
    EarnedNear(SumWhere(PlannedRows(b.lines), k), Grouped(GroupSum(Weights(l, l.links, true)), k),
               Grouped(GroupSum(Weights(l, l.links, false)), k));
    assert Evm(l, asOf).snapshot.phases[i] == MarkLimit(PhaseRowValues(l, b.lines, l.phases[i], asOf));
  }

  /** The gate is applicable, or incomplete, exactly when the snapshot is. */
  lemma GateAppliesTogether(l: Ledger, k: Key, asOf: int)
    ensures PhaseGateFacts(l, k, asOf).NotApplicable? <==> Evm(l, asOf).NoBaseline?
    ensures PhaseGateFacts(l, k, asOf).FactsIncomplete? <==> Evm(l, asOf).IncompleteCosts?
  {
  }
}
