/**
 The proleptic Gregorian calendar by its rule: day 0 is Monday 1 January of year 1, and each day has a next one.
 Minutes are counted from the start of day 0.
 */
module Calendar {

  datatype Date = Date(year: nat, month: nat, day: nat)

  predicate Leap(year: nat) {
    year % 4 == 0 && (year % 100 != 0 || year % 400 == 0)
  }

  /** The length of a month in a common year. */
  function CommonLength(month: nat): nat {
    if month == 2 then 28 else if month in {4, 6, 9, 11} then 30 else 31
  }

  function MonthLength(year: nat, month: nat): nat {
    if month == 2 && Leap(year) then 29 else CommonLength(month)
  }

  predicate IsDate(d: Date) {
    1 <= d.month <= 12 && 1 <= d.day <= MonthLength(d.year, d.month)
  }

  function NextDay(d: Date): Date {
    if d.day < MonthLength(d.year, d.month) then d.(day := d.day + 1)
    else if d.month < 12 then Date(d.year, d.month + 1, 1)
    else Date(d.year + 1, 1, 1)
  }

  function DateOf(n: nat): (d: Date)
    ensures IsDate(d)
  {
    if n == 0 then Date(1, 1, 1) else NextDay(DateOf(n - 1))
  }

  /** Sunday is 0. */
  function Weekday(n: nat): nat {
    (n + 1) % 7
  }

  const DayMinutes: nat := 1440

  function DayOf(minute: nat): nat {
    minute / DayMinutes
  }

  function HourOf(minute: nat): nat {
    minute % DayMinutes / 60
  }

  function MinuteOf(minute: nat): nat {
    minute % 60
  }

  // ---------------------------------------------------------------- years

  /** Days of the year before the first of the month. */
  function Before(year: nat, month: nat): nat
    requires 1 <= month
  {
    if month == 1 then 0 else Before(year, month - 1) + MonthLength(year, month - 1)
  }

  function Ordinal(d: Date): nat
    requires IsDate(d)
  {
    Before(d.year, d.month) + d.day
  }

  function YearLength(year: nat): nat {
    if Leap(year) then 366 else 365
  }

  lemma Months(year: nat)
    ensures Before(year, 2) == 31 && Before(year, 3) == 59 + if Leap(year) then 1 else 0
    ensures forall m | 3 <= m <= 12 :: Before(year, m) == Before(year, 3) + [0, 31, 61, 92, 122, 153, 184, 214, 245, 275][m - 3]
    ensures Before(year, 12) + 31 == YearLength(year)
  {
    assert Before(year, 4) == Before(year, 3) + 31;
    assert Before(year, 5) == Before(year, 4) + 30;
    assert Before(year, 6) == Before(year, 5) + 31;
    assert Before(year, 7) == Before(year, 6) + 30;
    assert Before(year, 8) == Before(year, 7) + 31;
    assert Before(year, 9) == Before(year, 8) + 31;
    assert Before(year, 10) == Before(year, 9) + 30;
    assert Before(year, 11) == Before(year, 10) + 31;
    assert Before(year, 12) == Before(year, 11) + 30;
  }

  /** The next day is the next of the year, or the first of the next year. */
  lemma NextOrdinal(d: Date)
    requires IsDate(d)
    ensures IsDate(NextDay(d)) && 1 <= Ordinal(d) <= YearLength(d.year)
    ensures if Ordinal(d) < YearLength(d.year) then NextDay(d).year == d.year && Ordinal(NextDay(d)) == Ordinal(d) + 1
            else NextDay(d) == Date(d.year + 1, 1, 1)
  {
    Months(d.year);
  }

  /** Dates of one year with the same ordinal are the same. */
  lemma SameOrdinal(a: Date, b: Date)
    requires IsDate(a) && IsDate(b) && a.year == b.year && Ordinal(a) == Ordinal(b)
    ensures a == b
  {
    Months(a.year);
    if a.month < b.month { BeforeMonotone(a.year, a.month + 1, b.month); }
    if b.month < a.month { BeforeMonotone(a.year, b.month + 1, a.month); }
  }

  lemma {:induction false} BeforeMonotone(year: nat, m: nat, n: nat)
    requires 1 <= m <= n
    ensures Before(year, m) <= Before(year, n)
  {
    if m < n { BeforeMonotone(year, m, n - 1); }
  }

  /** k days later in the same year. */
  lemma {:induction false} LaterInYear(n: nat, k: nat)
    requires Ordinal(DateOf(n)) + k <= YearLength(DateOf(n).year)
    ensures DateOf(n + k).year == DateOf(n).year && Ordinal(DateOf(n + k)) == Ordinal(DateOf(n)) + k
  {
    if k > 0 {
      LaterInYear(n, k - 1);
      NextOrdinal(DateOf(n + k - 1));
      assert DateOf(n + k) == NextDay(DateOf(n + k - 1));
    }
  }

  /** The first day of the next year. */
  lemma NewYear(n: nat) returns (k: nat)
    ensures 1 <= k <= YearLength(DateOf(n).year) && k == YearLength(DateOf(n).year) + 1 - Ordinal(DateOf(n))
    ensures DateOf(n + k) == Date(DateOf(n).year + 1, 1, 1)
  {
    NextOrdinal(DateOf(n));
    k := YearLength(DateOf(n).year) + 1 - Ordinal(DateOf(n));
    LaterInYear(n, k - 1);
    NextOrdinal(DateOf(n + k - 1));
    assert DateOf(n + k) == NextDay(DateOf(n + k - 1));
  }

  predicate Is(n: nat, month: nat, day: nat) {
    DateOf(n).month == month && DateOf(n).day == day
  }

  /** The number of the first day of a year, by the usual count of leap years. */
  function FirstDayOf(year: nat): nat
    requires year >= 1
  {
    365 * (year - 1) + (year - 1) / 4 - (year - 1) / 100 + (year - 1) / 400
  }

  lemma QuotientSteps(n: nat, d: nat)
    requires n >= 1 && d in {4, 100, 400}
    ensures n / d == (n - 1) / d + Divides(d, n)
  {
  }

  function Divides(d: nat, n: nat): nat
    requires d > 0
  {
    if n % d == 0 then 1 else 0
  }

  lemma MultipleOf(n: nat, c: nat, d: nat)
    requires (c, d) in {(4, 25), (100, 4)} && n % (c * d) == 0
    ensures n % c == 0
  {
  }

  lemma LeapCount(year: nat)
    ensures YearLength(year) == 365 + Divides(4, year) - Divides(100, year) + Divides(400, year)
  {
    if year % 400 == 0 { MultipleOf(year, 100, 4); }
    if year % 100 == 0 { MultipleOf(year, 4, 25); }
  }

  lemma YearsAddUp(year: nat)
    requires year >= 1
    ensures FirstDayOf(year + 1) == FirstDayOf(year) + YearLength(year)
  {
    LeapCount(year);
    QuotientSteps(year, 4);
    QuotientSteps(year, 100);
    QuotientSteps(year, 400);
  }

  /** Day by day and by the count of leap years, the calendar is the same. */
  lemma {:induction false} FirstDayIsNewYear(year: nat)
    requires year >= 1
    ensures DateOf(FirstDayOf(year)) == Date(year, 1, 1)
  {
    if year > 1 {
      var last: nat := year - 1;
      FirstDayIsNewYear(last);
      FirstOrdinal(DateOf(FirstDayOf(last)));
      YearsAddUp(last);
      var k := NewYear(FirstDayOf(last));
    }
  }

  lemma EpochDay(year: nat)
    requires year == 1970
    ensures FirstDayOf(year) == 719162
  {
  }

  lemma WeekdayAfter(weeks: nat, d: nat)
    requires 1 <= d <= 6
    ensures Weekday(7 * weeks + d - 1) == d
  {
  }

  /** The first of January 1970 was a Thursday. */
  lemma EpochIsThursday(n: nat)
    requires n == 719162
    ensures DateOf(n) == Date(1970, 1, 1) && Weekday(n) == 4
  {
    var year: nat :| year == 1970;
    EpochDay(year);
    FirstDayIsNewYear(year);
    WeekdayAfter(102737, 4);
  }

  lemma OrdinalShift(year: nat, month: nat, day: nat)
    requires 1 <= month <= 12 && 1 <= day <= CommonLength(month)
    ensures IsDate(Date(year, month, day)) && IsDate(Date(year + 1, month, day))
    ensures Ordinal(Date(year + 1, month, day)) <= Ordinal(Date(year, month, day)) + 1
    ensures Leap(year) ==> Ordinal(Date(year + 1, month, day)) <= Ordinal(Date(year, month, day))
  {
    Months(year);
    Months(year + 1);
  }

  /** The day in the next year, when it is over in this one. */
  lemma InNextYear(n: nat, month: nat, day: nat) returns (k: nat)
    requires 1 <= month <= 12 && 1 <= day <= CommonLength(month)
    requires IsDate(Date(DateOf(n).year + 1, month, day))
    ensures Is(n + k, month, day)
    ensures k == YearLength(DateOf(n).year) - Ordinal(DateOf(n)) + Ordinal(Date(DateOf(n).year + 1, month, day))
  {
    var j := NewYear(n);
    FirstOrdinal(DateOf(n + j));
    OrdinalBounds(Date(DateOf(n).year + 1, month, day));
    var i := LaterThisYear(n + j, month, day);
    k := j + i;
    assert n + k == n + j + i;
  }

  /** A day that every year has comes round among any 366 days in a row. */
  lemma ComesRound(n: nat, month: nat, day: nat) returns (k: nat)
    requires 1 <= month <= 12 && 1 <= day <= CommonLength(month)
    ensures k < 366 && Is(n + k, month, day)
  {
    var year := DateOf(n).year;
    OrdinalShift(year, month, day);
    OrdinalBounds(DateOf(n));
    OrdinalBounds(Date(year, month, day));
    if Ordinal(DateOf(n)) <= Ordinal(Date(year, month, day)) {
      k := LaterThisYear(n, month, day);
    } else {
      k := InNextYear(n, month, day);
    }
  }

  lemma OrdinalBounds(d: Date)
    requires IsDate(d)
    ensures 1 <= Ordinal(d) <= YearLength(d.year) <= 366
    ensures YearLength(d.year) == 366 <==> Leap(d.year)
  {
    NextOrdinal(d);
  }

  lemma FirstOrdinal(d: Date)
    requires IsDate(d) && d.month == 1 && d.day == 1
    ensures Ordinal(d) == 1
  {
  }

  lemma LaterThisYear(n: nat, month: nat, day: nat) returns (k: nat)
    requires IsDate(Date(DateOf(n).year, month, day)) && Ordinal(DateOf(n)) <= Ordinal(Date(DateOf(n).year, month, day))
    ensures Is(n + k, month, day) && k == Ordinal(Date(DateOf(n).year, month, day)) - Ordinal(DateOf(n))
  {
    var target := Date(DateOf(n).year, month, day);
    OrdinalBounds(target);
    k := Ordinal(target) - Ordinal(DateOf(n));
    LaterInYear(n, k);
    SameOrdinal(DateOf(n + k), target);
  }

  lemma CommonDate(d: Date)
    requires IsDate(d) && !Leap(d.year)
    ensures d.day <= CommonLength(d.month)
  {
  }

  lemma WithinCommonYear(start: nat, k: nat)
    requires Ordinal(DateOf(start)) == 1 && !Leap(DateOf(start).year) && k < 365
    ensures DateOf(start + k).day <= CommonLength(DateOf(start + k).month)
  {
    LaterInYear(start, k);
    CommonDate(DateOf(start + k));
  }

  lemma SecondYear(start: nat, k: nat)
    requires DateOf(start).month == 1 && DateOf(start).day == 1 && !Leap(DateOf(start).year) && k < 365
    ensures DateOf(start + k).day <= CommonLength(DateOf(start + k).month)
  {
    FirstOrdinal(DateOf(start));
    WithinCommonYear(start, k);
  }

  lemma AfterFirstYear(start: nat, k: nat)
    requires Ordinal(DateOf(start)) == 1 && !Leap(DateOf(start).year) && !Leap(DateOf(start).year + 1) && 365 <= k <= 366
    ensures DateOf(start + k).day <= CommonLength(DateOf(start + k).month)
  {
    var j := NewYear(start);
    SecondYear(start + j, k - j);
    assert start + k == start + j + (k - j);
  }

  /** From 1 January of a common year that another follows, no 29 February for the next 366 days. */
  lemma CommonYears(start: nat, k: nat)
    requires Ordinal(DateOf(start)) == 1 && !Leap(DateOf(start).year) && !Leap(DateOf(start).year + 1) && k <= 366
    ensures DateOf(start + k).day <= CommonLength(DateOf(start + k).month)
  {
    if k < 365 { WithinCommonYear(start, k); } else { AfterFirstYear(start, k); }
  }

  /** Every year has this day. */
  predicate IsCommonDay(n: nat) {
    DateOf(n).day <= CommonLength(DateOf(n).month)
  }

  lemma CommonDayAt(start: nat, k: nat, d: nat)
    requires Ordinal(DateOf(start)) == 1 && !Leap(DateOf(start).year) && !Leap(DateOf(start).year + 1) && k <= 366 && d == start + k
    ensures IsCommonDay(d)
  {
    CommonYears(start, k);
  }

  // ---------------------------------------------------------------- the calendar repeats

  /** The days of 400 years, which are whole weeks. */
  const Cycle: nat := 146097

  lemma RemainderRepeats(year: nat, d: nat)
    requires d in {4, 100, 400}
    ensures (year + 400) % d == year % d
  {
  }

  lemma LeapRepeats(year: nat)
    ensures Leap(year + 400) == Leap(year)
  {
    RemainderRepeats(year, 4);
    RemainderRepeats(year, 100);
    RemainderRepeats(year, 400);
  }

  function Later(d: Date): Date {
    d.(year := d.year + 400)
  }

  lemma NextDayRepeats(d: Date)
    ensures NextDay(Later(d)) == Later(NextDay(d))
  {
    LeapRepeats(d.year);
  }

  lemma CycleIsFourCenturies(n: nat, year: nat)
    requires n == Cycle && year == 401
    ensures DateOf(n) == Date(year, 1, 1)
  {
    FirstDayIsNewYear(year);
    CycleDays(year);
  }

  lemma CycleDays(year: nat)
    requires year == 401
    ensures FirstDayOf(year) == Cycle
  {
  }

  lemma WeekdayRepeats(n: nat)
    ensures Weekday(n + Cycle) == Weekday(n)
  {
    assert n + Cycle + 1 == (n + 1) + 7 * 20871;
  }

  /** After 146097 days every date and every weekday comes round, 400 years later. */
  lemma {:induction false} CalendarRepeats(n: nat)
    ensures DateOf(n + Cycle) == Later(DateOf(n)) && Weekday(n + Cycle) == Weekday(n)
  {
    WeekdayRepeats(n);
    if n == 0 {
      CycleIsFourCenturies(n + Cycle, 401);
    } else {
      CalendarRepeats(n - 1);
      NextDayRepeats(DateOf(n - 1));
      assert n + Cycle - 1 == n - 1 + Cycle;
    }
  }

  // ---------------------------------------------------------------- every date has its number

  /** The days go round the week, from Sunday on. */
  lemma WeekdayGoesRound(n: nat)
    ensures Weekday(n + 1) == if Weekday(n) == 6 then 0 else Weekday(n) + 1
    ensures Weekday(n) <= 6
  {
  }

  function LeapDay(year: nat): nat {
    if year % 4 == 0 && (year % 100 != 0 || year % 400 == 0) then 1 else 0
  }

  /** Days of a year before the first of the month. */
  function DaysBefore(year: nat, month: nat): nat
    requires 1 <= month <= 12
  {
    [0, 31, 59, 90, 120, 151, 181, 212, 243, 273, 304, 334][month - 1] + if month > 2 then LeapDay(year) else 0
  }

  function DaysIn(year: nat, month: nat): nat
    requires 1 <= month <= 12
  {
    [31, 28, 31, 30, 31, 30, 31, 31, 30, 31, 30, 31][month - 1] + if month == 2 then LeapDay(year) else 0
  }

  lemma DaysBeforeExactly(year: nat, month: nat)
    requires 1 <= month <= 12
    ensures Before(year, month) == DaysBefore(year, month) && MonthLength(year, month) == DaysIn(year, month)
  {
    Months(year);
  }

  lemma DayOfYear(start: nat, d: Date)
    requires IsDate(d) && DateOf(start) == Date(d.year, 1, 1)
    ensures DateOf(start + Ordinal(d) - 1) == d
  {
    FirstOrdinal(DateOf(start));
    OrdinalBounds(d);
    LaterInYear(start, Ordinal(d) - 1);
    SameOrdinal(DateOf(start + (Ordinal(d) - 1)), d);
  }

  /** Where a date lies: counted from its 1 January by the days of the months before it. */
  lemma DateExactly(year: nat, month: nat, day: nat)
    requires year >= 1 && 1 <= month <= 12 && 1 <= day <= DaysIn(year, month)
    ensures DateOf(FirstDayOf(year) + DaysBefore(year, month) + day - 1) == Date(year, month, day)
  {
    DaysBeforeExactly(year, month);
    FirstDayIsNewYear(year);
    DayOfYear(FirstDayOf(year), Date(year, month, day));
  }
}
