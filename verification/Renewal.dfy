/**
 * Expiry dates of nodes that stayed up past them, rolled forward by whole billing
 * cycles. Months are added one cycle at a time, so a day lost to a short month
 * stays lost.
 */
module Renewal {
  import opened Basics
  import opened Calendar

  /** The last year the date type can hold. */
  const MAX_YEAR := 262_142

  /** How many months the cycles that repeat take; any other, `once` included, does not. */
  const CYCLES: map<string, nat> :=
    map["monthly" := 1, "quarterly" := 3, "semiannual" := 6, "yearly" := 12, "biennial" := 24, "triennial" := 36]

  function CycleMonths(cycle: string): (months: Option<nat>)
    ensures months.Some? ==> months.value > 0
    ensures months.Some? <==> cycle in CYCLES
    ensures months.Some? ==> months.value == CYCLES[cycle]
  {
    match cycle
    case "monthly" => Some(1)
    case "quarterly" => Some(3)
    case "semiannual" => Some(6)
    case "yearly" => Some(12)
    case "biennial" => Some(24)
    case "triennial" => Some(36)
    case _ => None
  }

  /** Months since year zero. */
  function MonthIndex(d: Date): int { d.year * 12 + d.month - 1 }

  function LengthOf(index: int): int { DaysInMonth(index / 12, index % 12 + 1) }

  /** The same day so many months on, or the last of a month too short for it. */
  function AddMonths(d: NaiveDate, months: nat): Option<NaiveDate> {
    var index := MonthIndex(d) + months;
    if index / 12 > MAX_YEAR then None
    else Some(Date(index / 12, index % 12 + 1, Min(d.day, LengthOf(index))))
  }

  function Iterated(expires: NaiveDate, months: nat, k: nat): Option<NaiveDate> {
    if k == 0 then Some(expires)
    else match Iterated(expires, months, k - 1) case None => None case Some(d) => AddMonths(d, months)
  }

  /** The first `k` dates of the cycle are all in the past. */
  ghost predicate AllPast(expires: NaiveDate, months: nat, today: NaiveDate, k: nat) {
    forall j: nat :: j < k ==> Iterated(expires, months, j).Some? && Before(Iterated(expires, months, j).value, today)
  }

  /** The dates up to this one are all in the past; this one is not. */
  ghost predicate FirstNotPast(expires: NaiveDate, months: nat, today: NaiveDate, k: nat) {
    AllPast(expires, months, today, k) && Iterated(expires, months, k).Some?
    && !Before(Iterated(expires, months, k).value, today)
  }

  /** Every date the calendar can reach is in the past. */
  ghost predicate RunsOut(expires: NaiveDate, months: nat, today: NaiveDate) {
    exists k: nat :: AllPast(expires, months, today, k) && Iterated(expires, months, k).None?
  }

  /** The first date of the cycle not before today, unless that is the date it started from. */
  method Renewed(expires: NaiveDate, cycle: string, today: NaiveDate) returns (r: Option<NaiveDate>)
    ensures r.Some? ==>
      var months := CycleMonths(cycle);
      months.Some? && exists k: nat :: k > 0 && FirstNotPast(expires, months.value, today, k)
                                       && Iterated(expires, months.value, k) == r
    ensures r.None? <==>
      var months := CycleMonths(cycle);
      months.None? || !Before(expires, today) || RunsOut(expires, months.value, today)
  {
    var months := CycleMonths(cycle);
    if months.None? {
      return None;
    }
    var next := expires;
    ghost var k: nat := 0;
    hide Before, CycleMonths, AllPast, DaysInMonth, AddMonths;
    NothingIsPastYet(expires, months.value, today);
    while Before(next, today)
      invariant Iterated(expires, months.value, k) == Some(next) && AllPast(expires, months.value, today, k)
      invariant k == 0 <==> next == expires
      invariant MonthIndex(next) >= MonthIndex(expires)
      invariant k > 0 ==> MonthIndex(next) > MonthIndex(expires)
      decreases MonthIndex(today) - MonthIndex(next)
    {
      var added := AddMonths(next, months.value);
      OneMorePast(expires, months.value, today, k);
      MonthsAddUp(next, months.value, today);
      k := k + 1;
      if added.None? {
        return None;
      }
      next := added.value;
    }
    CycleEndsOneWay(expires, months.value, today, k);
    return if next != expires then Some(next) else None;
  }

  lemma NothingIsPastYet(expires: NaiveDate, months: nat, today: NaiveDate)
    ensures AllPast(expires, months, today, 0) && Iterated(expires, months, 0) == Some(expires)
  {
  }

  lemma OneMorePast(expires: NaiveDate, months: nat, today: NaiveDate, k: nat)
    requires AllPast(expires, months, today, k) && Iterated(expires, months, k).Some?
    requires Before(Iterated(expires, months, k).value, today)
    ensures AllPast(expires, months, today, k + 1) && Before(expires, today)
    ensures Iterated(expires, months, k + 1) == AddMonths(Iterated(expires, months, k).value, months)
  {
    assert Iterated(expires, months, 0) == Some(expires);
  }

  lemma MonthsAddUp(d: NaiveDate, months: nat, today: NaiveDate)
    requires Before(d, today)
    ensures MonthIndex(d) <= MonthIndex(today)
    ensures var added := AddMonths(d, months); added.Some? ==> MonthIndex(added.value) == MonthIndex(d) + months
  {
  }

  lemma {:induction false} IteratesExistBefore(expires: NaiveDate, months: nat, j: nat, k: nat)
    requires j <= k && Iterated(expires, months, k).Some?
    ensures Iterated(expires, months, j).Some?
    decreases k
  {
    if j < k { IteratesExistBefore(expires, months, j, k - 1); }
  }

  /** A cycle that reaches today does not also run out before it. */
  lemma CycleEndsOneWay(expires: NaiveDate, months: nat, today: NaiveDate, k: nat)
    requires FirstNotPast(expires, months, today, k)
    ensures !RunsOut(expires, months, today)
    ensures k > 0 <==> Before(expires, today)
  {
    assert Iterated(expires, months, 0) == Some(expires);
    if RunsOut(expires, months, today) {
      var n: nat :| AllPast(expires, months, today, n) && Iterated(expires, months, n).None?;
      if n <= k { IteratesExistBefore(expires, months, n, k); }
    }
  }

  // ---- where a date lands ----

  /** The day of month after `k` cycles: the original, capped by every month landed in on the way. */
  function CappedDay(expires: NaiveDate, months: nat, k: nat): int {
    if k == 0 then expires.day
    else Min(CappedDay(expires, months, k - 1), LengthOf(MonthIndex(expires) + k * months))
  }

  /** Whole cycles on in months; the day only ever lost to the shortest month landed in. */
  lemma {:induction false} RolledDateIsWholeCyclesOn(expires: NaiveDate, months: nat, k: nat)
    requires Iterated(expires, months, k).Some?
    ensures var d := Iterated(expires, months, k).value;
            MonthIndex(d) == MonthIndex(expires) + k * months && d.day == CappedDay(expires, months, k)
  {
    if k > 0 {
      RolledDateIsWholeCyclesOn(expires, months, k - 1);
      OneCycleMore(months, k);
      AddedDate(Iterated(expires, months, k - 1).value, months);
      hide AddMonths;
    }
  }

  lemma OneCycleMore(months: nat, k: nat)
    requires k > 0
    ensures k * months == (k - 1) * months + months
  {
  }

  /**
   * So many months on: the same day of that month, or its last if it has no such
   * day; and nothing past the last year there is.
   */
  lemma MonthsOnTheSameDay(d: NaiveDate, months: nat)
    ensures var added := AddMonths(d, months);
            && (added.None? <==> d.year * 12 + d.month - 1 + months >= 12 * 262_143)
            && (added.Some? ==>
                  var a := added.value;
                  && a.year * 12 + a.month == d.year * 12 + d.month + months
                  && a.day <= d.day && (a.day == d.day || a.day == DaysInMonth(a.year, a.month)))
  {
  }

  lemma AddedDate(d: NaiveDate, months: nat)
    ensures var added := AddMonths(d, months);
            added.Some? ==>
              && MonthIndex(added.value) == MonthIndex(d) + months
              && added.value.day == Min(d.day, LengthOf(MonthIndex(d) + months))
  {
  }

  // ---- in one go or in stages ----

  /** The date a node is left with on a given day. */
  function Rolled(expires: NaiveDate, months: nat, today: NaiveDate): Option<NaiveDate>
    requires months > 0
    decreases MonthIndex(today) - MonthIndex(expires) + 1
  {
    if !Before(expires, today) then Some(expires)
    else match AddMonths(expires, months) case None => None case Some(next) => Rolled(next, months, today)
  }

  lemma {:induction false} RolledIsTheFirstNotPast(expires: NaiveDate, months: nat, today: NaiveDate, k: nat)
    requires months > 0 && FirstNotPast(expires, months, today, k)
    ensures Rolled(expires, months, today) == Iterated(expires, months, k)
    decreases k
  {
    NothingIsPastYet(expires, months, today);
    if k > 0 {
      CycleEndsOneWay(expires, months, today, k);
      IteratesExistBefore(expires, months, 1, k);
      assert Iterated(expires, months, 1) == AddMonths(expires, months);
      var next := AddMonths(expires, months).value;
      hide Before, DaysInMonth, AddMonths;
      forall j: nat | j < k ensures Iterated(next, months, j) == Iterated(expires, months, j + 1) {
        IteratesShift(expires, months, next, j);
      }
      RolledIsTheFirstNotPast(next, months, today, k - 1);
    }
  }

  lemma {:induction false} IteratesShift(expires: NaiveDate, months: nat, next: NaiveDate, j: nat)
    requires AddMonths(expires, months) == Some(next)
    ensures Iterated(next, months, j) == Iterated(expires, months, j + 1)
    decreases j
  {
    if j == 0 {
      assert Iterated(expires, months, 0) == Some(expires);
    } else {
      IteratesShift(expires, months, next, j - 1);
    }
  }

  /** Rolling day by day, or after any gap, gives the date rolling once would. */
  lemma {:induction false} StagesRollToTheSameDate(expires: NaiveDate, months: nat, first: NaiveDate, today: NaiveDate)
    requires months > 0 && Leq(first, today)
    ensures var staged := Rolled(expires, months, first);
            Rolled(expires, months, today) ==
              match staged case None => None case Some(d) => Rolled(d, months, today)
    decreases MonthIndex(first) - MonthIndex(expires) + 1
  {
    if Before(expires, first) {
      match AddMonths(expires, months)
      case None =>
      case Some(next) => StagesRollToTheSameDate(next, months, first, today);
    }
  }

  // ---- not before today, or after it ----

  lemma {:induction false} IteratesRise(expires: NaiveDate, months: nat, j: nat, k: nat)
    requires months > 0 && j < k && Iterated(expires, months, k).Some?
    ensures Iterated(expires, months, j).Some? && Before(Iterated(expires, months, j).value, Iterated(expires, months, k).value)
    decreases k
  {
    IteratesExistBefore(expires, months, k - 1, k);
    if j < k - 1 { IteratesRise(expires, months, j, k - 1); }
    hide DaysInMonth;
  }

  lemma {:induction false} RolledIsOfTheCycle(expires: NaiveDate, months: nat, today: NaiveDate) returns (k: nat)
    requires months > 0 && Rolled(expires, months, today).Some?
    ensures Iterated(expires, months, k) == Rolled(expires, months, today)
    decreases MonthIndex(today) - MonthIndex(expires) + 1
  {
    if Before(expires, today) {
      var next := AddMonths(expires, months).value;
      k := RolledIsOfTheCycle(next, months, today);
      IteratesShift(expires, months, next, k);
      k := k + 1;
    } else {
      k := 0;
    }
  }

  /** A date rolled forward lands on today itself exactly when today is a date of its cycle. */
  lemma RolledDateIsTodayExactlyOnTheCycle(expires: NaiveDate, months: nat, today: NaiveDate)
    requires months > 0
    ensures Rolled(expires, months, today) == Some(today) <==> exists k: nat :: Iterated(expires, months, k) == Some(today)
  {
    if Rolled(expires, months, today) == Some(today) {
      var k := RolledIsOfTheCycle(expires, months, today);
      assert Iterated(expires, months, k) == Some(today);
    }
    if k: nat :| Iterated(expires, months, k) == Some(today) {
      forall j: nat | j < k
        ensures Iterated(expires, months, j).Some? && Before(Iterated(expires, months, j).value, today)
      {
        IteratesRise(expires, months, j, k);
      }
      RolledIsTheFirstNotPast(expires, months, today, k);
    }
  }

  /** So a date that was rolled need not lie in the future. */
  lemma RolledDateMayBeToday()
    ensures Rolled(Date(2026, 1, 15), 1, Date(2026, 2, 15)) == Some(Date(2026, 2, 15))
  {
    assert AddMonths(Date(2026, 1, 15), 1) == Some(Date(2026, 2, 15));
  }

  /** A day lost to a short month is not regained: the 31st becomes the 28th for good. */
  lemma ShortMonthTakesTheDayForGood()
    ensures Iterated(Date(2026, 1, 31), 1, 2) == Some(Date(2026, 3, 28))
  {
    assert Iterated(Date(2026, 1, 31), 1, 0) == Some(Date(2026, 1, 31));
    assert Iterated(Date(2026, 1, 31), 1, 1) == Some(Date(2026, 2, 28));
  }
}
