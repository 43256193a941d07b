/**
 Hourly rates by role, with periods of validity. A project may have rates of its own, which come before
 the system-wide ones; the table refuses two rates of one level and role whose periods overlap.
 */
module LaborRates {
  import opened Wrappers
  import opened Review
  import Plan

  /** Valid from `from` to the day before `to`, or without end. `project` is None for a system-wide rate. */
  datatype LaborRate = LaborRate(project: Option<Id>, role: string, cents: nat, currency: string, from: int, to: Option<int>)

  datatype RateReply = RateSet(rates: seq<LaborRate>) | RateOverlap | RatePeriodInvalid | RateCurrencyInvalid

  predicate ValidPeriod(r: LaborRate) {
    r.to.Some? ==> r.from < r.to.value
  }

  predicate InForce(r: LaborRate, level: Option<Id>, role: string, date: int) {
    r.project == level && r.role == role && r.from <= date && (r.to.Some? ==> date < r.to.value)
  }

  predicate Overlap(a: LaborRate, b: LaborRate) {
    && a.project == b.project && a.role == b.role
    && (a.to.Some? ==> b.from < a.to.value)
    && (b.to.Some? ==> a.from < b.to.value)
  }

  predicate OverlapsAny(rates: seq<LaborRate>, r: LaborRate) {
    exists i | 0 <= i < |rates| :: Overlap(rates[i], r)
  }

  function SetLaborRate(rates: seq<LaborRate>, r: LaborRate): RateReply {
    if !Plan.CurrencyCode(r.currency) then RateCurrencyInvalid
    else if !ValidPeriod(r) then RatePeriodInvalid
    else if OverlapsAny(rates, r) then RateOverlap
    else RateSet(rates + [r])
  }

  function FindRate(rates: seq<LaborRate>, level: Option<Id>, role: string, date: int): (r: Option<LaborRate>)
    ensures r.Some? ==> r.value in rates && InForce(r.value, level, role, date)
    ensures r.None? ==> forall i | 0 <= i < |rates| :: !InForce(rates[i], level, role, date)
  {
    if rates == [] then None
    else if InForce(rates[0], level, role, date) then Some(rates[0])
    else FindRate(rates[1..], level, role, date)
  }

  /** The rate that prices work of this role on this date: the project's own if there is one, else the system's. */
  function RateFor(rates: seq<LaborRate>, project: Id, role: string, date: int): (r: Option<LaborRate>)
    ensures r.Some? ==> r.value in rates && r.value.role == role && r.value.project in {None, Some(project)}
    ensures r.None? <==> forall i | 0 <= i < |rates| :: !InForce(rates[i], Some(project), role, date) && !InForce(rates[i], None, role, date)
  {
    var own := FindRate(rates, Some(project), role, date);
    if own.Some? then own else FindRate(rates, None, role, date)
  }

  /** What the constraints of the table keep. */
  predicate NoOverlap(rates: seq<LaborRate>) {
    && (forall i | 0 <= i < |rates| :: ValidPeriod(rates[i]) && Plan.CurrencyCode(rates[i].currency))
    && (forall i, j | 0 <= i < j < |rates| :: !Overlap(rates[i], rates[j]))
  }

  /** Two valid periods overlap exactly when some day is in both. */
  lemma OverlapIsSharedDay(a: LaborRate, b: LaborRate)
    requires ValidPeriod(a) && ValidPeriod(b)
    ensures Overlap(a, b) <==> exists date :: InForce(a, b.project, b.role, date) && InForce(b, a.project, a.role, date)
  {
    if Overlap(a, b) {
      var date := if a.from >= b.from then a.from else b.from;
      assert InForce(a, b.project, b.role, date) && InForce(b, a.project, a.role, date);
    }
  }

  /** Without overlaps at most one rate of a level is in force, so the order of the table does not matter. */
  lemma {:induction false} FoundIsUnique(rates: seq<LaborRate>, i: nat, level: Option<Id>, role: string, date: int)
    requires NoOverlap(rates) && i < |rates| && InForce(rates[i], level, role, date)
    ensures FindRate(rates, level, role, date) == Some(rates[i])
  {
    if i > 0 {
      assert !Overlap(rates[0], rates[i]);
      FoundIsUnique(rates[1..], i - 1, level, role, date);
    }
  }

  lemma {:induction false} FindRateAppend(rates: seq<LaborRate>, r: LaborRate, level: Option<Id>, role: string, date: int)
    ensures var before := FindRate(rates, level, role, date);
            FindRate(rates + [r], level, role, date)
            == if before.Some? then before else if InForce(r, level, role, date) then Some(r) else None
  {
    if rates != [] {
      assert (rates + [r])[1..] == rates[1..] + [r];
      FindRateAppend(rates[1..], r, level, role, date);
    }
  }

  /** An accepted rate prices exactly the work it is in force for, unless the project's own rates come before it. */
  lemma AcceptedRateEffect(rates: seq<LaborRate>, r: LaborRate, project: Id, role: string, date: int)
    requires NoOverlap(rates) && SetLaborRate(rates, r).RateSet?
    ensures NoOverlap(SetLaborRate(rates, r).rates)
    ensures var before := RateFor(rates, project, role, date);
            RateFor(SetLaborRate(rates, r).rates, project, role, date)
            == if InForce(r, Some(project), role, date) then Some(r)
               else if before.None? && InForce(r, None, role, date) then Some(r)
               else before
  {
    FindRateAppend(rates, r, Some(project), role, date);
    FindRateAppend(rates, r, None, role, date);
    forall i | 0 <= i < |rates| ensures !(InForce(rates[i], Some(project), role, date) && InForce(r, Some(project), role, date)) {
      NeverBothInForce(rates, rates[i], r, Some(project), role, date);
    }
  }

  /** A rate that overlaps none is never in force together with one of its level. */
  lemma NeverBothInForce(rates: seq<LaborRate>, own: LaborRate, r: LaborRate, level: Option<Id>, role: string, date: int)
    requires own in rates && !OverlapsAny(rates, r)
    ensures !(InForce(own, level, role, date) && InForce(r, level, role, date))
  {
    var i :| 0 <= i < |rates| && rates[i] == own;
    assert !Overlap(rates[i], r);
  }

  /** Setting rates one after the other; a refused one changes nothing. */
  function SetAll(rates: seq<LaborRate>, later: seq<LaborRate>): seq<LaborRate>
    decreases |later|
  {
    if later == [] then rates
    else
      var reply := SetLaborRate(rates, later[0]);
      SetAll(if reply.RateSet? then reply.rates else rates, later[1..])
  }

  /** Work priced by a rate of its project keeps that price, whatever rates are set later. */
  lemma {:induction false} ProjectPriceKept(rates: seq<LaborRate>, later: seq<LaborRate>, project: Id, role: string, date: int)
    requires NoOverlap(rates)
    requires RateFor(rates, project, role, date).Some? && RateFor(rates, project, role, date).value.project == Some(project)
    ensures RateFor(SetAll(rates, later), project, role, date) == RateFor(rates, project, role, date)
    ensures NoOverlap(SetAll(rates, later))
    decreases |later|
  {
    if later != [] {
      var reply := SetLaborRate(rates, later[0]);
      if reply.RateSet? {
        AcceptedRateEffect(rates, later[0], project, role, date);
        var own := RateFor(rates, project, role, date).value;
        NeverBothInForce(rates, own, later[0], Some(project), role, date);
        ProjectPriceKept(reply.rates, later[1..], project, role, date);
      } else {
        ProjectPriceKept(rates, later[1..], project, role, date);
      }
    }
  }

  // ---------------------------------------------------------------- rates by the day

  /** The rate is for this role and valid on this date, the day of its end no longer. */
  predicate Covers(r: LaborRate, role: string, date: int) {
    r.role == role && r.from <= date && (r.to.None? || date < r.to.value)
  }

  /** What a rate just accepted changes: work it covers gets it if it is of the project, or if it is the system's and the work
      had no rate; without rates there is no price. */
  lemma NewRatePrices(rates: seq<LaborRate>, r: LaborRate, project: Id, role: string, date: int)
    requires NoOverlap(rates) && SetLaborRate(rates, r).RateSet?
    ensures RateFor([], project, role, date) == None
    ensures var before := RateFor(rates, project, role, date);
            RateFor(SetLaborRate(rates, r).rates, project, role, date)
            == if Covers(r, role, date) && (r.project == Some(project) || (r.project == None && before == None)) then Some(r) else before
  {
    AcceptedRateEffect(rates, r, project, role, date);
  }

  /** A rate is accepted exactly with a currency of three capital letters, an end after its start if it has one, and no day
      that another rate of the same level and role covers. */
  lemma SetExactly(rates: seq<LaborRate>, r: LaborRate)
    requires NoOverlap(rates)
    ensures SetLaborRate(rates, r).RateSet? <==>
            && |r.currency| == 3 && (forall i | 0 <= i < 3 :: 'A' <= r.currency[i] <= 'Z')
            && (r.to.None? || r.from < r.to.value)
            && forall i, date | 0 <= i < |rates| && rates[i].project == r.project ::
                 !(Covers(rates[i], r.role, date) && Covers(r, r.role, date))
    ensures SetLaborRate(rates, r).RateSet? ==> SetLaborRate(rates, r).rates == rates + [r]
  {
    if ValidPeriod(r) {
      forall i | 0 <= i < |rates|
        ensures Overlap(rates[i], r) <==> rates[i].project == r.project && exists date :: Covers(rates[i], r.role, date) && Covers(r, r.role, date)
      {
        SharedDay(rates[i], r);
      }
    }
  }

  lemma SharedDay(a: LaborRate, b: LaborRate)
    requires ValidPeriod(a) && ValidPeriod(b)
    ensures Overlap(a, b) <==> a.project == b.project && exists date :: Covers(a, b.role, date) && Covers(b, b.role, date)
  {
    if Overlap(a, b) {
      var date := if a.from >= b.from then a.from else b.from;
      assert Covers(a, b.role, date) && Covers(b, b.role, date);
    }
  }
}
