/**
  * Calendar dates at day granularity, with the month arithmetic of Go's
  * `time.Time.AddDate(0, n, 0)`: the month is moved by n, and a day beyond
  * the end of the target month spills over into the following month.
  */
module Calendar {

  datatype Date = Date(year: int, month: int, day: int)

  predicate IsLeap(year: int)
  {
    year % 4 == 0 && (year % 100 != 0 || year % 400 == 0)
  }

  function DaysIn(year: int, month: int): (n: int)
    ensures 28 <= n <= 31
  {
    if month == 2 then (if IsLeap(year) then 29 else 28)
    else if month == 4 || month == 6 || month == 9 || month == 11 then 30
    else 31
  }

  predicate ValidDate(d: Date)
  {
    1 <= d.month <= 12 && 1 <= d.day <= DaysIn(d.year, d.month)
  }

  /** `a.Before(b)` for dates at midnight. */
  predicate Before(a: Date, b: Date)
  {
    a.year < b.year || (a.year == b.year && (a.month < b.month || (a.month == b.month && a.day < b.day)))
  }

  /** Months since January of year 0. */
  function MonthIndex(d: Date): int
  {
    d.year * 12 + d.month - 1
  }

  /**
    * The date n months after d. The month index moves by exactly n when the
    * day exists in the target month; otherwise the result is the day's
    * excess (at most 3) in the month after it.
    */
  function AddMonths(d: Date, n: int): (r: Date)
    requires ValidDate(d)
    ensures ValidDate(r)
    ensures d.day <= DaysIn((MonthIndex(d) + n) / 12, (MonthIndex(d) + n) % 12 + 1) ==>
      MonthIndex(r) == MonthIndex(d) + n && r.day == d.day
    ensures d.day > DaysIn((MonthIndex(d) + n) / 12, (MonthIndex(d) + n) % 12 + 1) ==>
      && MonthIndex(r) == MonthIndex(d) + n + 1
      && r.day == d.day - DaysIn((MonthIndex(d) + n) / 12, (MonthIndex(d) + n) % 12 + 1)
      && r.day < 4
  {
    var target := MonthIndex(d) + n;
    var y, m := target / 12, target % 12 + 1;
    var len := DaysIn(y, m);
    if d.day <= len then Date(y, m, d.day)
    else if m == 12 then Date(y + 1, 1, d.day - len)
    else Date(y, m + 1, d.day - len)
  }

  /** On valid dates the month index orders dates month by month. */
  lemma MonthIndexOrder(a: Date, b: Date)
    requires ValidDate(a) && ValidDate(b)
    ensures MonthIndex(a) < MonthIndex(b) ==> Before(a, b)
    ensures MonthIndex(a) == MonthIndex(b) ==> a.year == b.year && a.month == b.month
  {
  }

  /** Adding no months changes nothing. */
  lemma AddZeroMonths(d: Date)
    requires ValidDate(d)
    ensures AddMonths(d, 0) == d
  {
    MonthIndexOrder(d, AddMonths(d, 0));
  }

  /** Due dates strictly increase with the number of months added, month-end spill-over included. */
  lemma {:induction false} AddMonthsIncreasing(d: Date, i: int, j: int)
    requires ValidDate(d) && i < j
    ensures Before(AddMonths(d, i), AddMonths(d, j))
  {
    var a, b := AddMonths(d, i), AddMonths(d, j);
    MonthIndexOrder(a, b);
  }

  /** For a start day up to 28 every due date keeps the day and consecutive due dates are one month apart. */
  lemma {:induction false} ShortDayMonthly(d: Date, i: int)
    requires ValidDate(d) && d.day <= 28
    ensures AddMonths(d, i).day == d.day
    ensures AddMonths(AddMonths(d, i), 1) == AddMonths(d, i + 1)
  {
    var a := AddMonths(d, i);
    MonthIndexOrder(AddMonths(a, 1), AddMonths(d, i + 1));
  }

  /** Go's normalisation: one month after 31 January 2025 is 3 March 2025. */
  lemma MonthEndSpillsOver()
    ensures AddMonths(Date(2025, 1, 31), 1) == Date(2025, 3, 3)
  {
  }
}
