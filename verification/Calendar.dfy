/**
 * The Gregorian calendar as the hub uses it, and the billing periods laid over
 * it: a period starts on the node's reset day, or on the last day of a month
 * too short to have one.
 */
module Calendar {
  import opened Basics

  datatype Date = Date(year: int, month: int, day: int)

  predicate Leap(y: int) { y % 4 == 0 && (y % 100 != 0 || y % 400 == 0) }

  function DaysInMonth(y: int, m: int): (n: int)
    ensures 28 <= n <= 31
  {
    if m == 2 then (if Leap(y) then 29 else 28)
    else if m == 4 || m == 6 || m == 9 || m == 11 then 30
    else 31
  }

  predicate Valid(d: Date) { 1 <= d.month <= 12 && 1 <= d.day <= DaysInMonth(d.year, d.month) }

  type NaiveDate = d: Date | Valid(d) witness Date(1970, 1, 1)

  predicate Leq(a: Date, b: Date) {
    a.year < b.year || (a.year == b.year && (a.month < b.month || (a.month == b.month && a.day <= b.day)))
  }

  predicate Before(a: Date, b: Date) { !Leq(b, a) }

  // ---- day numbers: what "so many days apart" means ----

  function DaysBeforeYear(y: int): int { 365 * y + (y - 1) / 4 - (y - 1) / 100 + (y - 1) / 400 }

  function DaysBeforeMonth(y: int, m: int): int
    requires 1 <= m <= 13
    decreases m
  {
    if m == 1 then 0 else DaysBeforeMonth(y, m - 1) + DaysInMonth(y, m - 1)
  }

  function DayNumber(d: NaiveDate): int {
    DaysBeforeYear(d.year) + DaysBeforeMonth(d.year, d.month) + d.day
  }

  lemma YearLength(y: int)
    ensures DaysBeforeYear(y + 1) == DaysBeforeYear(y) + DaysBeforeMonth(y, 13)
    ensures DaysBeforeMonth(y, 13) == if Leap(y) then 366 else 365
  {
    hide Leap, DaysBeforeMonth;
    MonthTable(y);
    LeapDay(y);
    FebruaryLength(y);
  }

  lemma FebruaryLength(y: int)
    ensures DaysInMonth(y, 2) == if Leap(y) then 29 else 28
  {
  }

  /** The leap days counted before a year step by one past each leap year. */
  lemma LeapDay(y: int)
    ensures (y / 4 - (y - 1) / 4) - (y / 100 - (y - 1) / 100) + (y / 400 - (y - 1) / 400) == if Leap(y) then 1 else 0
  {
    FloorStep(y, 4);
    FloorStep(y, 100);
    FloorStep(y, 400);
    Centuries(y);
  }

  lemma Centuries(y: int)
    ensures y % 400 == 0 ==> y % 100 == 0
    ensures y % 100 == 0 ==> y % 4 == 0
  {
    Multiples(4 * (y / 400));
    Multiples(25 * (y / 100));
  }

  lemma Multiples(x: int)
    ensures (100 * x) % 100 == 0 && (4 * x) % 4 == 0
  {
  }

  lemma FloorStep(y: int, k: int)
    requires k == 4 || k == 100 || k == 400
    ensures y / k - (y - 1) / k == if y % k == 0 then 1 else 0
  {
  }

  lemma MonthTable(y: int)
    ensures DaysBeforeMonth(y, 13) == 337 + DaysInMonth(y, 2)
  {
    assert DaysBeforeMonth(y, 3) == 31 + DaysInMonth(y, 2);
    assert DaysBeforeMonth(y, 5) == DaysBeforeMonth(y, 3) + 61;
    assert DaysBeforeMonth(y, 7) == DaysBeforeMonth(y, 5) + 61;
    assert DaysBeforeMonth(y, 9) == DaysBeforeMonth(y, 7) + 62;
    assert DaysBeforeMonth(y, 11) == DaysBeforeMonth(y, 9) + 61;
    assert DaysBeforeMonth(y, 13) == DaysBeforeMonth(y, 11) + 61;
  }

  lemma {:induction false} MonthsAccumulate(y: int, m: int, n: int)
    requires 1 <= m < n <= 13
    ensures DaysBeforeMonth(y, m) + DaysInMonth(y, m) <= DaysBeforeMonth(y, n)
    decreases n
  {
    if m + 1 < n {
      MonthsAccumulate(y, m, n - 1);
    }
  }

  lemma {:induction false} YearsAccumulate(y: int, z: int)
    requires y < z
    ensures DaysBeforeYear(y) + DaysBeforeMonth(y, 13) <= DaysBeforeYear(z)
    decreases z - y
  {
    YearLength(z - 1);
    if y < z - 1 {
      YearsAccumulate(y, z - 1);
    } else {
      YearLength(y);
    }
  }

  lemma BeforeMeansFewerDays(a: NaiveDate, b: NaiveDate)
    requires Before(a, b)
    ensures DayNumber(a) < DayNumber(b)
  {
    if a.year < b.year {
      YearsAccumulate(a.year, b.year);
      if a.month < 12 { MonthsAccumulate(a.year, a.month, 13); }
      if b.month > 1 { MonthsAccumulate(b.year, 1, b.month); }
    } else if a.month < b.month {
      MonthsAccumulate(a.year, a.month, b.month);
    }
  }

  /** Field order on dates is day order, so a day number names one date. */
  lemma DateOrderIsDayOrder(a: NaiveDate, b: NaiveDate)
    ensures Leq(a, b) <==> DayNumber(a) <= DayNumber(b)
    ensures a == b <==> DayNumber(a) == DayNumber(b)
  {
    if Before(a, b) {
      BeforeMeansFewerDays(a, b);
    } else if Before(b, a) {
      BeforeMeansFewerDays(b, a);
    }
  }

  /** Where the months of a common year begin, in days from its first. */
  const MONTH_STARTS := [0, 31, 59, 90, 120, 151, 181, 212, 243, 273, 304, 334]

  /**
   * The calendar itself, by its constants: where months begin, that 1970 and 2000
   * are 10957 days apart, and that four centuries are 146097 days.
   */
  lemma CalendarConstants(y: int, m: int)
    requires 1 <= m <= 12
    ensures DayNumber(Date(y, m, 1)) - DayNumber(Date(y, 1, 1)) == MONTH_STARTS[m - 1] + if m > 2 && Leap(y) then 1 else 0
    ensures DayNumber(Date(y + 400, m, 1)) == DayNumber(Date(y, m, 1)) + 146_097
    ensures DayNumber(Date(2000, 1, 1)) == DayNumber(Date(1970, 1, 1)) + 10_957
  {
    MonthStarts(y, m);
    MonthStarts(y + 400, m);
    FourCenturies(y);
  }

  lemma MonthStarts(y: int, m: int)
    requires 1 <= m <= 12
    ensures DaysBeforeMonth(y, m) == MONTH_STARTS[m - 1] + if m > 2 && Leap(y) then 1 else 0
  {
    if m > 1 { MonthStarts(y, m - 1); }
  }

  lemma FourCenturies(y: int)
    ensures DaysBeforeYear(y + 400) == DaysBeforeYear(y) + 146_097 && (Leap(y + 400) <==> Leap(y))
  {
    Shifted(y - 1, 4, 100);
    Shifted(y - 1, 100, 4);
    Shifted(y - 1, 400, 1);
    Shifted(y, 4, 100);
    Shifted(y, 100, 4);
    Shifted(y, 400, 1);
  }

  lemma Shifted(y: int, k: int, n: int)
    requires (k == 4 && n == 100) || (k == 100 && n == 4) || (k == 400 && n == 1)
    ensures (y + 400) / k == y / k + n && (y + 400) % k == y % k
  {
  }

  function NextMonth(y: int, m: int): (int, int) { if m == 12 then (y + 1, 1) else (y, m + 1) }

  /** The source finds a month's last day as the eve of the next month's first. */
  lemma LastDayIsEveOfNextMonth(y: int, m: int)
    requires 1 <= m <= 12
    ensures var (ny, nm) := NextMonth(y, m);
            DayNumber(Date(ny, nm, 1)) == DayNumber(Date(y, m, DaysInMonth(y, m))) + 1
  {
    YearLength(y);
  }

  // ---- billing periods ----

  /** The reset date of one month: the wanted day, or the month's last. */
  function Clamped(y: int, m: int, resetDay: nat): (d: NaiveDate)
    requires 1 <= m <= 12
  {
    Date(y, m, Min(Max(1, Min(resetDay, 31)), DaysInMonth(y, m)))
  }

  /** The day of month asked for, or the last of a month that has no such day; 0 asks for the 1st, 32 and up for the 31st. */
  predicate IsReset(d: NaiveDate, resetDay: nat) {
    var wanted := if resetDay == 0 then 1 else if 31 < resetDay then 31 else resetDay;
    d.day == wanted || (d.day < wanted && d.day == DaysInMonth(d.year, d.month))
  }

  /** Each month has one reset date, and it is the clamped one. */
  lemma ResetIsClamped(d: NaiveDate, resetDay: nat)
    ensures IsReset(d, resetDay) <==> d == Clamped(d.year, d.month, resetDay)
  {
  }

  function PeriodStart(today: NaiveDate, resetDay: nat): NaiveDate {
    var current := Clamped(today.year, today.month, resetDay);
    if Leq(current, today) then current
    else if today.month == 1 then Clamped(today.year - 1, 12, resetDay)
    else Clamped(today.year, today.month - 1, resetDay)
  }

  /** The reset date one month after the period that contains `today` began. */
  function NextReset(today: NaiveDate, resetDay: nat): NaiveDate {
    var p := PeriodStart(today, resetDay);
    var (y, m) := NextMonth(p.year, p.month);
    Clamped(y, m, resetDay)
  }

  lemma PeriodStartIsGreatestReset(today: NaiveDate, resetDay: nat)
    ensures var p := PeriodStart(today, resetDay);
            && IsReset(p, resetDay) && Leq(p, today)
            && forall r: NaiveDate :: IsReset(r, resetDay) && Leq(r, today) ==> Leq(r, p)
  {
  }

  /**
   * Which day that is: the one asked for, unless the month is too short to have it;
   * and every such day starts a period.
   */
  lemma PeriodsStartOnTheDayAskedFor(d: NaiveDate, resetDay: nat)
    requires 1 <= resetDay <= 31
    ensures var p := PeriodStart(d, resetDay);
            p.day == resetDay || (p.day == DaysInMonth(p.year, p.month) < resetDay)
    ensures d.day == resetDay ==> PeriodStart(d, resetDay) == d
    ensures d.day == DaysInMonth(d.year, d.month) < resetDay ==> PeriodStart(d, resetDay) == d
    ensures d.day < resetDay && d.day < DaysInMonth(d.year, d.month) ==> PeriodStart(d, resetDay).month != d.month
  {
  }

  lemma ResetDaysOutOfRangeActAsTheNearest(d: NaiveDate, resetDay: nat)
    ensures PeriodStart(d, 0) == PeriodStart(d, 1)
    ensures 31 <= resetDay ==> PeriodStart(d, resetDay) == PeriodStart(d, 31)
  {
  }

  lemma PeriodStartIsIdempotent(today: NaiveDate, resetDay: nat)
    ensures PeriodStart(PeriodStart(today, resetDay), resetDay) == PeriodStart(today, resetDay)
  {
  }

  lemma PeriodStartIsMonotone(a: NaiveDate, b: NaiveDate, resetDay: nat)
    requires Leq(a, b)
    ensures Leq(PeriodStart(a, resetDay), PeriodStart(b, resetDay))
  {
    PeriodStartIsGreatestReset(a, resetDay);
    PeriodStartIsGreatestReset(b, resetDay);
  }

  lemma PeriodSpacing(p: NaiveDate, n: NaiveDate, resetDay: nat)
    requires IsReset(p, resetDay)
    requires n == (var (y, m) := NextMonth(p.year, p.month); Clamped(y, m, resetDay))
    ensures 28 <= DayNumber(n) - DayNumber(p) <= 31
  {
    LastDayIsEveOfNextMonth(p.year, p.month);
    assert DayNumber(n) - DayNumber(p) == DaysInMonth(p.year, p.month) - p.day + n.day;
  }

  lemma PeriodContains(p: NaiveDate, n: NaiveDate, d: NaiveDate, resetDay: nat)
    requires IsReset(p, resetDay)
    requires n == (var (y, m) := NextMonth(p.year, p.month); Clamped(y, m, resetDay))
    ensures PeriodStart(d, resetDay) == p <==> Leq(p, d) && Before(d, n)
  {
  }

  /**
   * Periods tile the calendar: one date belongs to the period of another exactly
   * when it lies between that period's start and the next, and no period is
   * shorter than 28 days or longer than 31.
   */
  lemma PeriodsPartitionTheCalendar(today: NaiveDate, other: NaiveDate, resetDay: nat)
    ensures var p, n := PeriodStart(today, resetDay), NextReset(today, resetDay);
            && Leq(p, today) && Before(today, n)
            && PeriodStart(n, resetDay) == n
            && (PeriodStart(other, resetDay) == p <==> Leq(p, other) && Before(other, n))
            && 28 <= DayNumber(n) - DayNumber(p) <= 31
  {
    var p, n := PeriodStart(today, resetDay), NextReset(today, resetDay);
    PeriodStartIsGreatestReset(today, resetDay);
    PeriodContains(p, n, today, resetDay);
    PeriodContains(p, n, other, resetDay);
    PeriodSpacing(p, n, resetDay);
  }
}
