/**
 Calendar expressions of five fields, and the search for the next minute that satisfies them all.
 Instants are nanoseconds from the start of the calendar.
 */
module Cron {
  import opened Wrappers
  import opened Calendar
  import opened CronFields
  import Canonical

  datatype Parsed = Parsed(minute: Field, hour: Field, day: Field, month: Field, weekday: Field) | Malformed

  // ---------------------------------------------------------------- the search

  predicate Matches(p: Parsed, minute: nat)
    requires p.Parsed?
  {
    var d := DateOf(DayOf(minute));
    && Admits(p.month, d.month) && Admits(p.day, d.day) && Admits(p.weekday, Weekday(DayOf(minute)))
    && Admits(p.hour, HourOf(minute)) && Admits(p.minute, MinuteOf(minute))
  }

  const Nanos: nat := 60_000_000_000
  const Window: nat := 366 * 24 * 60

  /** The first whole minute after the instant. */
  function FirstMinute(from: nat): nat {
    (from + Nanos) / Nanos
  }

  lemma FirstMinuteIsNext(from: nat, minute: nat)
    ensures minute >= FirstMinute(from) <==> minute * Nanos > from
  {
  }

  /** The minute begins after the instant, and no later than 366 days after it. */
  predicate InTime(from: nat, minute: nat) {
    from < minute * (60 * 1_000_000_000) <= from + 366 * 24 * 60 * (60 * 1_000_000_000)
  }

  lemma InTimeIsInWindow(from: nat, minute: nat)
    ensures InTime(from, minute) <==> FirstMinute(from) <= minute < FirstMinute(from) + Window
  {
  }

  /** The least whole minute strictly after the instant, among the next 366 days, that satisfies every field. */
  method NextMatch(p: Parsed, from: nat) returns (next: Option<nat>)
    requires p.Parsed?
    ensures next.Some? ==> next.value * Nanos > from && Matches(p, next.value)
                           && forall m: nat | m * Nanos > from && m < next.value :: !Matches(p, m)
    ensures next.Some? <==> exists m: nat | FirstMinute(from) <= m < FirstMinute(from) + Window :: Matches(p, m)
    ensures next.Some? <==> exists m: nat | InTime(from, m) :: Matches(p, m)
  {
    forall m: nat ensures InTime(from, m) <==> FirstMinute(from) <= m < FirstMinute(from) + Window { InTimeIsInWindow(from, m); }
    var candidate := FirstMinute(from);
    FirstMinuteIsNext(from, candidate);
    for i := 0 to Window
      invariant candidate == FirstMinute(from) + i
      invariant forall m: nat | FirstMinute(from) <= m < candidate :: !Matches(p, m)
    {
      if Matches(p, candidate) {
        forall m: nat | m * Nanos > from && m < candidate ensures !Matches(p, m) { FirstMinuteIsNext(from, m); }
        FirstMinuteIsNext(from, candidate);
        return Some(candidate);
      }
      candidate := candidate + 1;
    }
    return None;
  }

  /** All five fields are written correctly. */
  predicate ExpressionFits(cron: string) {
    var fields := Words(cron);
    && |fields| == 5 && FieldFits(fields[0], 0, 59) && FieldFits(fields[1], 0, 23) && FieldFits(fields[2], 1, 31)
    && FieldFits(fields[3], 1, 12) && FieldFits(fields[4], 0, 6)
  }

  /** Each field admits some value, as a parsed one does. */
  predicate Inhabited(p: Parsed)
    requires p.Parsed?
  {
    && (exists v | 0 <= v <= 59 :: Admits(p.minute, v)) && (exists v | 0 <= v <= 23 :: Admits(p.hour, v))
    && (exists v | 1 <= v <= 31 :: Admits(p.day, v)) && (exists v | 1 <= v <= 12 :: Admits(p.month, v))
    && (exists v | 0 <= v <= 6 :: Admits(p.weekday, v))
  }

  /** What the text of the expression means for a minute. */
  predicate Denotes(cron: string, minute: nat)
    requires ExpressionFits(cron)
  {
    && Means(Words(cron)[0], 0, 59, MinuteOf(minute)) && Means(Words(cron)[1], 0, 23, HourOf(minute))
    && Means(Words(cron)[2], 1, 31, DateOf(DayOf(minute)).day) && Means(Words(cron)[3], 1, 12, DateOf(DayOf(minute)).month)
    && Means(Words(cron)[4], 0, 6, Weekday(DayOf(minute)))
  }

  /** The field admits exactly the values that its text means. */
  ghost predicate Reads(f: Field, field: string, min: int, max: int)
    requires FieldFits(field, min, max)
  {
    forall v | min <= v <= max :: Admits(f, v) <==> Means(field, min, max, v)
  }

  lemma ReadDenotes(cron: string, p: Parsed, minute: nat)
    requires ExpressionFits(cron) && p.Parsed?
    requires Reads(p.minute, Words(cron)[0], 0, 59) && Reads(p.hour, Words(cron)[1], 0, 23) && Reads(p.day, Words(cron)[2], 1, 31)
    requires Reads(p.month, Words(cron)[3], 1, 12) && Reads(p.weekday, Words(cron)[4], 0, 6)
    ensures Matches(p, minute) <==> Denotes(cron, minute)
  {
    WeekdayGoesRound(DayOf(minute));
  }

  method ParseExpression(cron: string) returns (p: Parsed)
    ensures p.Parsed? <==> ExpressionFits(cron)
    ensures p.Parsed? ==> Inhabited(p)
    ensures p.Parsed? ==> forall minute: nat :: Matches(p, minute) <==> Denotes(cron, minute)
  {
    var fields := Words(cron);
    if |fields| != 5 { return Malformed; }
    var minute := ParseField(fields[0], 0, 59);
    if minute.None? { return Malformed; }
    var hour := ParseField(fields[1], 0, 23);
    if hour.None? { return Malformed; }
    var day := ParseField(fields[2], 1, 31);
    if day.None? { return Malformed; }
    var month := ParseField(fields[3], 1, 12);
    if month.None? { return Malformed; }
    var weekday := ParseField(fields[4], 0, 6);
    if weekday.None? { return Malformed; }
    p := Parsed(minute.value, hour.value, day.value, month.value, weekday.value);
    forall minute: nat ensures Matches(p, minute) <==> Denotes(cron, minute) { ReadDenotes(cron, p, minute); }
  }

  lemma DecimalIsWord(n: nat)
    ensures Word(Decimal(n))
  {
    DecimalIsDigits(n);
    assert forall i | 0 <= i < |Decimal(n)| :: Digit(Decimal(n)[i]);
  }

  /** The five fields of an expression for one time of day. */
  function DailyFields(hour: nat, minute: nat): seq<string> {
    [Decimal(minute), Decimal(hour), "*", "*", "*"]
  }

  lemma DailyWords(hour: nat, minute: nat)
    ensures Words(Canonical.Join(DailyFields(hour, minute), ' ')) == DailyFields(hour, minute)
  {
    DecimalIsWord(hour);
    DecimalIsWord(minute);
    WordsOfJoined(DailyFields(hour, minute));
  }

  /** Minute and hour, followed by three asterisks, mean this time of every day. */
  lemma DailyMeans(hour: nat, minute: nat, t: nat)
    requires hour <= 23 && minute <= 59
    ensures var cron := Canonical.Join(DailyFields(hour, minute), ' ');
            ExpressionFits(cron) && (Denotes(cron, t) <==> exists day: nat :: t == day * 24 * 60 + hour * 60 + minute)
  {
    DailyWords(hour, minute);
    OneNumberMeans(minute, 0, 59, MinuteOf(t));
    OneNumberMeans(hour, 0, 23, HourOf(t));
    TimeExactly(hour, minute, t);
  }

  lemma TimeAddsUp(t: nat)
    ensures t == DayOf(t) * 24 * 60 + HourOf(t) * 60 + MinuteOf(t)
  {
    var r := t % DayMinutes;
    TimeOfDay(DayOf(t), r / 60, r % 60);
  }

  lemma TimeExactly(hour: nat, minute: nat, t: nat)
    requires hour <= 23 && minute <= 59
    ensures MinuteOf(t) == minute && HourOf(t) == hour <==> exists day: nat :: t == day * 24 * 60 + hour * 60 + minute
  {
    TimeAddsUp(t);
    if day: nat :| t == day * 24 * 60 + hour * 60 + minute { TimeOfDay(day, hour, minute); }
  }

  // ---------------------------------------------------------------- when the search succeeds

  ghost predicate FoundFrom(p: Parsed, from: nat)
    requires p.Parsed?
  {
    exists m: nat | FirstMinute(from) <= m < FirstMinute(from) + Window :: Matches(p, m)
  }

  /** The date and the weekday are admitted. */
  predicate AdmitsDay(p: Parsed, n: nat)
    requires p.Parsed?
  {
    Admits(p.month, DateOf(n).month) && Admits(p.day, DateOf(n).day) && Admits(p.weekday, Weekday(n))
  }

  /** One of the 366 days from day n is admitted. */
  predicate Covered(p: Parsed, n: nat)
    requires p.Parsed?
  {
    exists d | n <= d < n + 366 :: AdmitsDay(p, d)
  }

  lemma TimeOfDay(day: nat, hour: nat, minute: nat)
    requires hour <= 23 && minute <= 59
    ensures var t := day * DayMinutes + hour * 60 + minute; DayOf(t) == day && HourOf(t) == hour && MinuteOf(t) == minute
  {
  }

  lemma MatchAt(p: Parsed, day: nat, hour: nat, minute: nat)
    requires p.Parsed? && hour <= 23 && minute <= 59 && AdmitsDay(p, day) && Admits(p.hour, hour) && Admits(p.minute, minute)
    ensures Matches(p, day * DayMinutes + hour * 60 + minute)
  {
    TimeOfDay(day, hour, minute);
  }

  /** The minute is within the window when its day is not too far off, or it is the later of two turns. */
  lemma WithinWindow(first: nat, day: nat, t: nat)
    requires t <= DayMinutes - 1 && DayOf(first) <= day <= DayOf(first) + 366
    requires day == DayOf(first) ==> first <= day * DayMinutes + t
    requires day == DayOf(first) + 366 ==> day * DayMinutes + t < first + Window
    ensures first <= day * DayMinutes + t < first + Window
  {
  }

  /** When a time of day is admitted that is over today, the next admitted day will do. */
  lemma CoveredIsFound(p: Parsed, from: nat)
    requires p.Parsed? && Inhabited(p) && Covered(p, DayOf(FirstMinute(from))) && Covered(p, DayOf(FirstMinute(from)) + 1)
    ensures FoundFrom(p, from)
  {
    var first := FirstMinute(from);
    var today := DayOf(first);
    var hour :| 0 <= hour <= 23 && Admits(p.hour, hour);
    var minute :| 0 <= minute <= 59 && Admits(p.minute, minute);
    var t := hour * 60 + minute;
    var day :| today <= day < today + 366 && AdmitsDay(p, day);
    if day == today && today * DayMinutes + t < first { day :| today + 1 <= day < today + 1 + 366 && AdmitsDay(p, day); }
    MatchAt(p, day, hour, minute);
    WithinWindow(first, day, t);
    assert day * DayMinutes + hour * 60 + minute == day * DayMinutes + t;
  }

  /** The last nanosecond before day n. */
  function JustBefore(n: nat): nat
    requires n >= 1
  {
    n * DayMinutes * Nanos - 1
  }

  lemma BeforeMidnight(n: nat)
    requires n >= 1
    ensures FirstMinute(JustBefore(n)) == n * DayMinutes
  {
    assert JustBefore(n) + Nanos == n * DayMinutes * Nanos + (Nanos - 1);
  }

  lemma MatchedDay(p: Parsed, n: nat, minute: nat)
    requires p.Parsed? && n * DayMinutes <= minute < n * DayMinutes + Window && Matches(p, minute)
    ensures Covered(p, n)
  {
    assert AdmitsDay(p, DayOf(minute));
  }

  lemma UncoveredIsMissed(p: Parsed, n: nat)
    requires p.Parsed? && n >= 1 && !Covered(p, n)
    ensures !FoundFrom(p, JustBefore(n))
  {
    BeforeMidnight(n);
    if m: nat :| n * DayMinutes <= m < n * DayMinutes + Window && Matches(p, m) { MatchedDay(p, n, m); }
  }

  // ---------------------------------------------------------------- when it never fails

  /** Every stretch of 366 days that starts in one cycle of the calendar has an admitted day. */
  predicate CoveredCycle(p: Parsed)
    requires p.Parsed?
  {
    forall n | 1 <= n <= Cycle :: Covered(p, n)
  }

  lemma CoverRepeats(p: Parsed, n: nat)
    requires p.Parsed?
    ensures Covered(p, n) <==> Covered(p, n + Cycle)
  {
    if d :| n <= d < n + 366 && AdmitsDay(p, d) {
      CalendarRepeats(d);
      assert AdmitsDay(p, d + Cycle);
    }
    if d :| n + Cycle <= d < n + Cycle + 366 && AdmitsDay(p, d) {
      CalendarRepeats(d - Cycle);
      assert AdmitsDay(p, d - Cycle);
    }
  }

  lemma {:induction false} CycleCovers(p: Parsed, n: nat)
    requires p.Parsed? && CoveredCycle(p)
    ensures Covered(p, n)
  {
    if n == 0 {
      CoverRepeats(p, 0);
    } else if n > Cycle {
      CycleCovers(p, n - Cycle);
      CoverRepeats(p, n - Cycle);
    }
  }

  /** For every expression: the search never fails, whatever the start, exactly if no stretch of 366 days is without an
      admitted day. As the calendar repeats, it is enough to look at the stretches of 400 years. */
  lemma NeverFailsExactly(p: Parsed)
    requires p.Parsed? && Inhabited(p)
    ensures (forall from: nat :: FoundFrom(p, from)) <==> CoveredCycle(p)
  {
    if CoveredCycle(p) {
      forall from: nat ensures FoundFrom(p, from) {
        CycleCovers(p, DayOf(FirstMinute(from)));
        CycleCovers(p, DayOf(FirstMinute(from)) + 1);
        CoveredIsFound(p, from);
      }
    } else {
      var n :| 1 <= n <= Cycle && !Covered(p, n);
      UncoveredIsMissed(p, n);
    }
  }

  // ---------------------------------------------------------------- when every weekday is admitted

  predicate EveryWeekday(p: Parsed)
    requires p.Parsed?
  {
    forall w | 0 <= w <= 6 :: Admits(p.weekday, w)
  }

  /** Some admitted day exists in an admitted month of every year. */
  predicate EveryYear(p: Parsed)
    requires p.Parsed?
  {
    exists month, day | 1 <= month <= 12 && 1 <= day <= CommonLength(month) :: Admits(p.month, month) && Admits(p.day, day)
  }

  lemma EveryYearCovers(p: Parsed, n: nat)
    requires p.Parsed? && EveryWeekday(p) && EveryYear(p)
    ensures Covered(p, n)
  {
    var month, day :| 1 <= month <= 12 && 1 <= day <= CommonLength(month) && Admits(p.month, month) && Admits(p.day, day);
    var k := ComesRound(n, month, day);
    assert AdmitsDay(p, n + k);
  }

  lemma AdmittedInEveryYear(p: Parsed, n: nat)
    requires p.Parsed? && AdmitsDay(p, n) && DateOf(n).day <= CommonLength(DateOf(n).month)
    ensures EveryYear(p)
  {
    assert Admits(p.month, DateOf(n).month) && Admits(p.day, DateOf(n).day);
  }

  lemma CommonDaysCover(p: Parsed, start: nat)
    requires p.Parsed? && Covered(p, start)
    requires forall d | start <= d < start + 366 :: IsCommonDay(d)
    ensures EveryYear(p)
  {
    var d :| start <= d < start + 366 && AdmitsDay(p, d);
    assert IsCommonDay(d);
    AdmittedInEveryYear(p, d);
  }

  lemma LaterYears(year: nat)
    requires year > 1
    ensures FirstDayOf(year) >= 1
  {
  }

  /** Without such a day the search fails when it starts as a common year begins that another common year follows. */
  lemma LeapDayMissed(p: Parsed, year: nat)
    requires p.Parsed? && !EveryYear(p) && year > 1 && !Leap(year) && !Leap(year + 1)
    ensures DateOf(FirstDayOf(year)) == Date(year, 1, 1) && FirstDayOf(year) >= 1
    ensures !Covered(p, FirstDayOf(year)) && !FoundFrom(p, JustBefore(FirstDayOf(year)))
  {
    var start := FirstDayOf(year);
    LaterYears(year);
    FirstDayIsNewYear(year);
    FirstOrdinal(DateOf(start));
    forall d | start <= d < start + 366 ensures IsCommonDay(d) { CommonDayAt(start, d - start, d); }
    if Covered(p, start) { CommonDaysCover(p, start); }
    UncoveredIsMissed(p, start);
  }

  /** The 29th of February at midnight is not found from the end of 2024. */
  lemma LeapDayMissedIn2025(p: Parsed, year: nat)
    requires p == Parsed(Only({0}), Only({0}), Only({29}), Only({2}), Any) && year == 2025
    ensures DateOf(FirstDayOf(year)) == Date(2025, 1, 1) && FirstDayOf(year) >= 1 && !FoundFrom(p, JustBefore(FirstDayOf(year)))
  {
    LeapDayMissed(p, year);
  }

  /** If every weekday is admitted, the search never fails exactly if some admitted day occurs in an admitted month of every year. */
  lemma NeverFailsAnyWeekday(p: Parsed)
    requires p.Parsed? && EveryWeekday(p) && Inhabited(p)
    ensures (forall from: nat :: FoundFrom(p, from)) <==> EveryYear(p)
  {
    NeverFailsExactly(p);
    if EveryYear(p) {
      forall n | 1 <= n <= Cycle ensures Covered(p, n) { EveryYearCovers(p, n); }
    } else {
      LeapDayMissed(p, SomeCommonYear());
    }
  }

  function SomeCommonYear(): (year: nat)
    ensures year > 1 && !Leap(year) && !Leap(year + 1)
  {
    2025
  }

  /** In particular, any day of month up to 28 is enough. */
  lemma EarlyDayNeverFails(p: Parsed, day: nat, from: nat)
    requires p.Parsed? && EveryWeekday(p) && Inhabited(p) && 1 <= day <= 28 && Admits(p.day, day)
    ensures FoundFrom(p, from)
  {
    var month :| 1 <= month <= 12 && Admits(p.month, month);
    assert day <= CommonLength(month);
    NeverFailsAnyWeekday(p);
  }
}
