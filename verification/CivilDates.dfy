/** Gregorian dates as proleptic ordinals, and the month step that clips to the month's last day. */
module CivilDates {
  /** Ordinal 1 is 1 January of year 1, the first date the source's dates can hold. */
  type Date = d: int | 1 <= d witness 1

  predicate IsLeap(year: int) {
    year % 4 == 0 && (year % 100 != 0 || year % 400 == 0)
  }

  /** Month 0 is January of year 1. */
  function DaysInMonth(month: nat): (n: nat)
    ensures 28 <= n <= 31
  {
    var m := month % 12;
    if m == 1 then (if IsLeap(month / 12 + 1) then 29 else 28)
    else if m == 3 || m == 5 || m == 8 || m == 10 then 30
    else 31
  }

  function MonthStart(month: nat): Date {
    if month == 0 then 1 else MonthStart(month - 1) + DaysInMonth(month - 1)
  }

  function FindMonth(date: Date, from: nat): (m: nat)
    requires MonthStart(from) <= date
    ensures MonthStart(m) <= date < MonthStart(m + 1)
    decreases date - MonthStart(from)
  {
    if date < MonthStart(from + 1) then from else FindMonth(date, from + 1)
  }

  function MonthOf(date: Date): (m: nat)
    ensures MonthStart(m) <= date < MonthStart(m + 1)
  {
    FindMonth(date, 0)
  }

  function DayOf(date: Date): (day: nat)
    ensures 1 <= day <= DaysInMonth(MonthOf(date))
  {
    date - MonthStart(MonthOf(date)) + 1
  }

  /** The same day `months` later, or that month's last day when it is shorter. */
  function AddMonths(date: Date, months: nat): Date {
    var m := MonthOf(date) + months;
    var day := if DayOf(date) <= DaysInMonth(m) then DayOf(date) else DaysInMonth(m);
    MonthStart(m) + day - 1
  }

  lemma {:induction false} MonthsInOrder(a: nat, b: nat)
    requires a <= b
    ensures MonthStart(a) + 28 * (b - a) <= MonthStart(b)
  {
    if a < b {
      MonthsInOrder(a, b - 1);
    }
  }

  /** A date lies in exactly one month. */
  lemma MonthIsUnique(date: Date, m: nat)
    requires MonthStart(m) <= date < MonthStart(m + 1)
    ensures MonthOf(date) == m
  {
    if MonthOf(date) < m {
      MonthsInOrder(MonthOf(date) + 1, m);
    } else if m < MonthOf(date) {
      MonthsInOrder(m + 1, MonthOf(date));
    }
  }

  /** The month step lands in the intended month, on the clipped day. */
  lemma AddMonthsLands(date: Date, months: nat)
    ensures MonthOf(AddMonths(date, months)) == MonthOf(date) + months
    ensures DayOf(AddMonths(date, months)) ==
      if DayOf(date) <= DaysInMonth(MonthOf(date) + months) then DayOf(date) else DaysInMonth(MonthOf(date) + months)
  {
    MonthIsUnique(AddMonths(date, months), MonthOf(date) + months);
  }

  lemma AddMonthsAdvances(date: Date, months: nat)
    requires months > 0
    ensures AddMonths(date, months) > date
  {
    MonthsInOrder(MonthOf(date) + 1, MonthOf(date) + months);
  }

  // ----- The calendar itself -----

  /** The lengths of the months: the year of month 12 * y is year y + 1. */
  lemma MonthLengths(y: nat, m: nat)
    requires m < 12
    ensures DaysInMonth(12 * y + m) ==
      if m == 1 && (y + 1) % 4 == 0 && ((y + 1) % 100 != 0 || (y + 1) % 400 == 0) then 29
      else [31, 28, 31, 30, 31, 30, 31, 31, 30, 31, 30, 31][m]
  {
    assert (12 * y + m) / 12 == y && (12 * y + m) % 12 == m;
  }

  /** Years are 365 days long, with a leap day every fourth year but not in three out of four centuries. */
  lemma {:induction false} YearsAddUp(y: nat)
    ensures MonthStart(12 * y) == 365 * y + y / 4 - y / 100 + y / 400 + 1
  {
    if y > 0 {
      YearsAddUp(y - 1);
      YearLength(y - 1);
      LeapDays(y);
    }
  }

  lemma LeapDays(y: nat)
    requires y > 0
    ensures y / 4 - (y - 1) / 4 == (if y % 4 == 0 then 1 else 0)
    ensures y / 100 - (y - 1) / 100 == (if y % 100 == 0 then 1 else 0)
    ensures y / 400 - (y - 1) / 400 == (if y % 400 == 0 then 1 else 0)
    ensures (y % 100 == 0 ==> y % 4 == 0) && (y % 400 == 0 ==> y % 100 == 0)
  {
  }

  lemma MonthsOn(month: nat)
    ensures MonthStart(month + 1) == MonthStart(month) + DaysInMonth(month)
  {
  }

  lemma YearLength(y: nat)
    ensures MonthStart(12 * y + 12) == MonthStart(12 * y) + 365 +
      if (y + 1) % 4 == 0 && ((y + 1) % 100 != 0 || (y + 1) % 400 == 0) then 1 else 0
  {
    hide MonthStart, DaysInMonth;
    for m: nat := 0 to 12
      invariant MonthStart(12 * y + m) == MonthStart(12 * y) + DaysBefore(y, m)
    {
      MonthLengths(y, m);
      MonthsOn(12 * y + m);
      assert 12 * y + m + 1 == 12 * y + (m + 1);
    }
  }

  /** The days of year y + 1 before its month m. */
  ghost function DaysBefore(y: nat, m: nat): nat
    requires m <= 12
  {
    [0, 31, 59, 90, 120, 151, 181, 212, 243, 273, 304, 334, 365][m]
    + if m > 1 && (y + 1) % 4 == 0 && ((y + 1) % 100 != 0 || (y + 1) % 400 == 0) then 1 else 0
  }

  /** A date is its day in its month. */
  lemma DateIsDayOfMonth(date: Date)
    ensures date == MonthStart(MonthOf(date)) + DayOf(date) - 1
    ensures MonthStart(MonthOf(date)) <= date < MonthStart(MonthOf(date) + 1)
  {
  }

  /** 1 January 1970 is day 719163. */
  lemma Epoch()
    ensures MonthStart(12 * 1969) == 719163
  {
    hide MonthStart;
    YearsAddUp(1969);
  }
}
