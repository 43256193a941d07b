/**
 What the numbers of a snapshot are: each record's part in them, the values of the indices and of the estimate,
 and where the budget goes.
 */
module EarnedValueExact {
  import opened Wrappers
  import opened Review
  import opened PhaseGraph
  import opened Plan
  import opened LaborRates
  import opened EarnedValue

  lemma {:induction false} SumWhereConcat(a: seq<Amount>, b: seq<Amount>, k: Key)
    ensures SumWhere(a + b, k) == SumWhere(a, k) + SumWhere(b, k)
    decreases |b|
  {
    if b == [] {
      assert a + b == a;
    } else {
      assert (a + b)[..|a + b| - 1] == a + b[..|b| - 1];
      SumWhereConcat(a, b[..|b| - 1], k);
    }
  }

  // ---------------------------------------------------------------- actual cost

  lemma CostIsSum(l: Ledger, k: Key, asOf: int)
    ensures ExactCost(l, k, asOf) == SumWhere(LaborCosts(l, l.work, asOf), k) + SumWhere(ExpenseCosts(l.expenses, asOf), k)
  {
    GroupedIsFiltered(Costs(l, asOf), k);
    SumWhereConcat(LaborCosts(l, l.work, asOf), ExpenseCosts(l.expenses, asOf), k);
  }

  lemma NoCosts(l: Ledger, k: Key, asOf: int)
    requires l.work == [] && l.expenses == []
    ensures ExactCost(l, k, asOf) == 0
  {
    CostIsSum(l, k, asOf);
  }

  /** An expense adds its amount to the cost of its phase from its date on, and to nothing else. */
  lemma ExpenseCounts(l: Ledger, e: Expense, k: Key, asOf: int)
    ensures ExactCost(l.(expenses := l.expenses + [e]), k, asOf)
            == ExactCost(l, k, asOf) + if e.phase == k && e.date <= asOf then 100 * e.amount else 0
  {
    var after := l.(expenses := l.expenses + [e]);
    CostIsSum(l, k, asOf);
    CostIsSum(after, k, asOf);
    SameLabor(l, after, l.work, asOf);
    assert after.expenses[..|l.expenses|] == l.expenses;
    SumWhereConcat(ExpenseCosts(l.expenses, asOf), if e.date <= asOf then [Amount(e.phase, 100 * e.amount)] else [], k);
    SumWhereAppend([], Amount(e.phase, 100 * e.amount), k);
  }

  lemma {:induction false} SameLabor(l: Ledger, m: Ledger, work: seq<WorkRecord>, asOf: int)
    requires l.rates == m.rates && l.project == m.project
    ensures LaborCosts(l, work, asOf) == LaborCosts(m, work, asOf)
  {
    if work != [] { SameLabor(l, m, work[..|work| - 1], asOf); }
  }

  /** Work adds its hours, from its date on, at the rate in force for its role on that date: the project's own if there is one,
      else the system's; and nothing if there is none. */
  lemma WorkCounts(l: Ledger, w: WorkRecord, k: Key, asOf: int)
    ensures var rate := RateFor(l.rates, l.project, w.role, w.date);
            ExactCost(l.(work := l.work + [w]), k, asOf)
            == ExactCost(l, k, asOf) + if w.phase == k && w.date <= asOf && rate.Some? then w.hundredths * rate.value.cents else 0
  {
    var after := l.(work := l.work + [w]);
    CostIsSum(l, k, asOf);
    CostIsSum(after, k, asOf);
    SameLabor(l, after, l.work, asOf);
    assert after.work[..|l.work|] == l.work;
    var row := Amount(w.phase, LaborCost(l, w));
    assert LaborCosts(after, after.work, asOf) == LaborCosts(l, l.work, asOf) + if w.date <= asOf then [row] else [];
    SumWhereConcat(LaborCosts(l, l.work, asOf), if w.date <= asOf then [row] else [], k);
    SumWhereAppend([], row, k);
  }

  // ---------------------------------------------------------------- weights and budget lines

  /** The weight of the deliverables of a phase, and of those that are approved. */
  function WeightOf(l: Ledger, k: Key, approvedOnly: bool): nat {
    SumWhere(Weights(l, l.links, approvedOnly), k)
  }

  /** A link adds its weight to its phase if its product exists, and to the approved weight only if that is approved. */
  lemma LinkCounts(l: Ledger, link: Link, k: Key, approvedOnly: bool)
    ensures WeightOf(l.(links := []), k, approvedOnly) == 0
    ensures WeightOf(l.(links := l.links + [link]), k, approvedOnly)
            == WeightOf(l, k, approvedOnly)
               + if link.phase == k && link.product in l.statuses && (approvedOnly ==> l.statuses[link.product] == Approved)
                 then link.weight else 0
  {
    var after := l.(links := l.links + [link]);
    LastWeight(after, after.links, approvedOnly, k);
    assert after.links[..|l.links|] == l.links;
    SameStatuses(l, after, l.links, approvedOnly);
  }

  lemma {:induction false} SameStatuses(l: Ledger, m: Ledger, links: seq<Link>, approvedOnly: bool)
    requires l.statuses == m.statuses
    ensures Weights(l, links, approvedOnly) == Weights(m, links, approvedOnly)
  {
    if links != [] { SameStatuses(l, m, links[..|links| - 1], approvedOnly); }
  }

  /** Without an approved deliverable a phase has earned nothing. */
  lemma NothingApprovedEarnsNothing(l: Ledger, lines: seq<BudgetLine>, s: Schedule, asOf: int)
    requires forall i | 0 <= i < |l.links| && l.links[i].phase == s.key ::
               l.links[i].product in l.statuses ==> l.statuses[l.links[i].product] != Approved
    ensures PhaseRowValues(l, lines, s, asOf).ev == 0
  {
    var approved, total := Grouped(GroupSum(Weights(l, l.links, true)), s.key), Grouped(GroupSum(Weights(l, l.links, false)), s.key);
    NoApprovedWeight(l, l.links, s.key);
    GroupedIsFiltered(Weights(l, l.links, true), s.key);
    if approved.Some? && total.Some? && total.value > 0 { RoundWhole(0, total.value); }
  }

  lemma {:induction false} NoApprovedWeight(l: Ledger, links: seq<Link>, k: Key)
    requires forall i | 0 <= i < |links| && links[i].phase == k :: links[i].product in l.statuses ==> l.statuses[links[i].product] != Approved
    ensures SumWhere(Weights(l, links, true), k) == 0
  {
    if links != [] {
      NoApprovedWeight(l, links[..|links| - 1], k);
      LastWeight(l, links, true, k);
    }
  }

  /** A budget line adds its plan and its limit to the row of its phase. */
  lemma LineCounts(l: Ledger, lines: seq<BudgetLine>, line: BudgetLine, s: Schedule, asOf: int)
    ensures var before, after := PhaseRowValues(l, lines, s, asOf), PhaseRowValues(l, lines + [line], s, asOf);
            && after.planned == before.planned + (if line.phase == s.key then line.planned else 0)
            && after.limit == before.limit + (if line.phase == s.key then line.limit else 0)
    ensures PhaseRowValues(l, [], s, asOf).planned == 0 && PhaseRowValues(l, [], s, asOf).limit == 0
  {
    GroupsAreFilters(l, lines, s.key, asOf);
    GroupsAreFilters(l, lines + [line], s.key, asOf);
    GroupsAreFilters(l, [], s.key, asOf);
    SumWhereAppend(PlannedRows(lines), Amount(line.phase, line.planned), s.key);
    SumWhereAppend(LimitRows(lines), Amount(line.phase, line.limit), s.key);
    assert PlannedRows(lines + [line]) == PlannedRows(lines) + [Amount(line.phase, line.planned)];
    assert LimitRows(lines + [line]) == LimitRows(lines) + [Amount(line.phase, line.limit)];
  }

  // ---------------------------------------------------------------- one row

  /** a / b to the nearest whole. */
  predicate Nearest(whole: int, a: nat, b: nat)
    requires b > 0
  {
    0 <= 2 * (whole * b - a) + b <= 2 * b
  }

  lemma RoundIsNearest(n: nat, d: nat)
    requires d > 0
    ensures Nearest(Round(n, d), n, d)
  {
    assert 2 * d * Round(n, d) == 2 * (Round(n, d) * d);
  }

  /** The planned value of a row: none before the start, all from the finish on, and between them by the days gone by. */
  lemma PlannedExactly(l: Ledger, lines: seq<BudgetLine>, s: Schedule, asOf: int)
    ensures var p := PhaseRowValues(l, lines, s, asOf);
            if s.start.None? || s.finish.None? || asOf < s.start.value then p.pv == 0
            else if asOf >= s.finish.value then p.pv == p.planned
            else Nearest(p.pv, p.planned * (asOf - s.start.value), s.finish.value - s.start.value)
  {
    var planned := PhaseRowValues(l, lines, s, asOf).planned;
    if s.start.Some? && s.finish.Some? && s.start.value <= asOf < s.finish.value {
      RoundIsNearest(planned * (asOf - s.start.value), s.finish.value - s.start.value);
    }
  }

  /** The actual cost of a row, to the nearest cent. */
  lemma CostExactly(l: Ledger, lines: seq<BudgetLine>, s: Schedule, asOf: int)
    ensures Nearest(PhaseRowValues(l, lines, s, asOf).ac, ExactCost(l, s.key, asOf), 100) && PhaseRowValues(l, lines, s, asOf).key == s.key
  {
    RoundIsNearest(ExactCost(l, s.key, asOf), 100);
  }

  /** The earned value of a row: its budget by the approved weight of the total weight, and nothing without weights. */
  lemma EarnedExactly(l: Ledger, lines: seq<BudgetLine>, s: Schedule, asOf: int)
    ensures var p := PhaseRowValues(l, lines, s, asOf);
            if WeightOf(l, s.key, false) == 0 then p.ev == 0
            else Nearest(p.ev, p.planned * WeightOf(l, s.key, true), WeightOf(l, s.key, false))
  {
    GroupedIsFiltered(Weights(l, l.links, true), s.key);
    GroupedIsFiltered(Weights(l, l.links, false), s.key);
    ShareIsNearest(PhaseRowValues(l, lines, s, asOf).planned, Grouped(GroupSum(Weights(l, l.links, true)), s.key),
                   Grouped(GroupSum(Weights(l, l.links, false)), s.key));
  }

  lemma ShareIsNearest(planned: nat, earned: Option<nat>, total: Option<nat>)
    ensures if OrZero(total) == 0 then EarnedShare(planned, earned, total) == 0
            else Nearest(EarnedShare(planned, earned, total), planned * OrZero(earned), OrZero(total))
  {
    if OrZero(total) > 0 {
      RoundIsNearest(planned * OrZero(earned), OrZero(total));
    }
  }

  // ---------------------------------------------------------------- the snapshot

  /** The snapshot of the approved version, with its currency: a row for each phase in order, marked if its cost exceeds a limit that is set,
      indices to the nearest ten-thousandth and the estimate to the nearest cent. */
  lemma SnapshotExactly(l: Ledger, asOf: int)
    requires Evm(l, asOf).Computed?
    ensures var s := Evm(l, asOf).snapshot;
            && 1 <= s.version <= |l.baselines| && l.baselines[s.version - 1].status == BaselineApproved
            && s.currency == l.baselines[s.version - 1].currency
            && |s.phases| == |l.phases|
            && (forall i | 0 <= i < |l.phases| ::
                  var p := PhaseRowValues(l, l.baselines[s.version - 1].lines, l.phases[i], asOf);
                  s.phases[i] == p.(overLimit := p.limit > 0 && p.ac > p.limit))
            && s.cv == s.ev - s.ac && s.sv == s.ev - s.pv
            && (if s.ac == 0 then s.cpi.None? else s.cpi.Some? && Nearest(s.cpi.value, 10000 * s.ev, s.ac))
            && (if s.pv == 0 then s.spi.None? else s.spi.Some? && Nearest(s.spi.value, 10000 * s.ev, s.pv))
            && (if s.ev == 0 || s.ac == 0 then s.eac.None? else s.eac.Some? && Nearest(s.eac.value, s.bac * s.ac, s.ev))
  {
    var s := Evm(l, asOf).snapshot;
    if s.ac > 0 { RoundIsNearest(10000 * s.ev, s.ac); }
    if s.pv > 0 { RoundIsNearest(10000 * s.ev, s.pv); }
    if s.ac > 0 && s.ev > 0 { RoundIsNearest(s.bac * s.ac, s.ev); }
  }

  // ---------------------------------------------------------------- the budget

  function TotalPlanned(ps: seq<PhaseValues>): nat {
    if ps == [] then 0 else TotalPlanned(ps[..|ps| - 1]) + ps[|ps| - 1].planned
  }

  predicate DistinctSchedules(phases: seq<Schedule>) {
    forall i, j | 0 <= i < j < |phases| :: phases[i].key != phases[j].key
  }

  predicate Scheduled(phases: seq<Schedule>, k: Key) {
    exists i | 0 <= i < |phases| :: phases[i].key == k
  }

  lemma ScheduledLast(phases: seq<Schedule>, k: Key)
    requires phases != []
    ensures Scheduled(phases, k) <==> Scheduled(phases[..|phases| - 1], k) || phases[|phases| - 1].key == k
  {
    var rest := phases[..|phases| - 1];
    if i :| 0 <= i < |rest| && rest[i].key == k { assert phases[i].key == k; }
    if i :| 0 <= i < |phases| && phases[i].key == k {
      if i < |rest| { assert rest[i].key == k; }
    }
  }

  function SumOver(rows: seq<Amount>, phases: seq<Schedule>): nat {
    if phases == [] then 0 else SumOver(rows, phases[..|phases| - 1]) + SumWhere(rows, phases[|phases| - 1].key)
  }

  lemma {:induction false} SumOverAppend(rows: seq<Amount>, a: Amount, phases: seq<Schedule>)
    requires DistinctSchedules(phases)
    ensures SumOver(rows + [a], phases)
            == SumOver(rows, phases) + if Scheduled(phases, a.phase) then a.value else 0
  {
    if phases != [] {
      var rest, last := phases[..|phases| - 1], phases[|phases| - 1];
      SumOverAppend(rows, a, rest);
      SumWhereAppend(rows, a, last.key);
      ScheduledLast(phases, a.phase);
      assert Scheduled(rest, a.phase) ==> a.phase != last.key;
    }
  }

  lemma {:induction false} SumOverNone(phases: seq<Schedule>)
    ensures SumOver([], phases) == 0
  {
    if phases != [] { SumOverNone(phases[..|phases| - 1]); }
  }

  /** Rows of listed phases add up to the sums of the phases. */
  lemma {:induction false} SumsAddUp(rows: seq<Amount>, phases: seq<Schedule>)
    requires DistinctSchedules(phases)
    requires forall r | 0 <= r < |rows| :: Scheduled(phases, rows[r].phase)
    ensures Sum(rows) == SumOver(rows, phases)
  {
    if rows == [] {
      SumOverNone(phases);
    } else {
      var n := |rows| - 1;
      SumsAddUp(rows[..n], phases);
      SumOverAppend(rows[..n], rows[n], phases);
      assert rows == rows[..n] + [rows[n]];
    }
  }

  lemma {:induction false} PlannedOver(l: Ledger, lines: seq<BudgetLine>, n: nat, asOf: int)
    requires n <= |l.phases|
    ensures TotalPlanned(PhaseRows(l, lines, asOf)[..n]) == SumOver(PlannedRows(lines), l.phases[..n])
  {
    if n > 0 {
      PlannedOver(l, lines, n - 1, asOf);
      GroupedIsFiltered(PlannedRows(lines), l.phases[n - 1].key);
      assert PhaseRows(l, lines, asOf)[..n][..n - 1] == PhaseRows(l, lines, asOf)[..n - 1];
      assert l.phases[..n][..n - 1] == l.phases[..n - 1];
    }
  }

  lemma {:induction false} MarksKeepPlanned(ps: seq<PhaseValues>)
    ensures TotalPlanned(MarkLimits(ps)) == TotalPlanned(ps)
  {
    if ps != [] {
      assert MarkLimits(ps)[..|ps| - 1] == MarkLimits(ps[..|ps| - 1]);
      MarksKeepPlanned(ps[..|ps| - 1]);
    }
  }

  predicate AllScheduled(phases: seq<Schedule>, lines: seq<BudgetLine>) {
    forall r | 0 <= r < |lines| :: Scheduled(phases, lines[r].phase)
  }

  lemma LinesAddUp(l: Ledger, lines: seq<BudgetLine>, asOf: int)
    requires DistinctSchedules(l.phases) && AllScheduled(l.phases, lines)
    ensures Sum(PlannedRows(lines)) == TotalPlanned(MarkLimits(PhaseRows(l, lines, asOf)))
  {
    var rows, ps := PlannedRows(lines), PhaseRows(l, lines, asOf);
    forall r | 0 <= r < |rows| ensures Scheduled(l.phases, rows[r].phase) { assert Scheduled(l.phases, lines[r].phase); }
    SumsAddUp(rows, l.phases);
    PlannedOver(l, lines, |l.phases|, asOf);
    MarksKeepPlanned(ps);
    assert l.phases[..|l.phases|] == l.phases && ps[..|l.phases|] == ps;
  }

  /** No budget is lost or counted twice: if every line of the version names a phase, its total is the sum over the phases. */
  lemma BudgetConserved(l: Ledger, asOf: int)
    requires Evm(l, asOf).Computed? && DistinctSchedules(l.phases)
    requires AllScheduled(l.phases, l.baselines[ApprovedBaseline(l.baselines).value].lines)
    ensures Evm(l, asOf).snapshot.bac == TotalPlanned(Evm(l, asOf).snapshot.phases)
  {
    LinesAddUp(l, l.baselines[ApprovedBaseline(l.baselines).value].lines, asOf);
  }
}
