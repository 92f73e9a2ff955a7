/** Calendar dates as the application's `Date` objects see them: a year, a
    0-based month and a day of the month, with JavaScript's rules for
    out-of-range months and days. */
module Calendar {

  datatype Date = Date(year: int, month: int, day: int)

  /** Proleptic Gregorian leap years, as `Date` uses. */
  predicate IsLeapYear(y: int) {
    (y % 4 == 0 && y % 100 != 0) || y % 400 == 0
  }

  function DaysInMonth(y: int, m: int): (n: int)
    requires 0 <= m < 12
    ensures 28 <= n <= 31
  {
    if m == 1 then (if IsLeapYear(y) then 29 else 28)
    else if m == 3 || m == 5 || m == 8 || m == 10 then 30
    else 31
  }

  /** A date a `Date` object can denote. */
  predicate Valid(d: Date) {
    0 <= d.month < 12 && 1 <= d.day <= DaysInMonth(d.year, d.month)
  }

  /** Position of the date's month on an absolute month axis. */
  function MonthIndex(d: Date): int {
    d.year * 12 + d.month
  }

  /** JavaScript's normalisation of a (year, month) pair whose month lies
      outside 0..11: whole years carry into the year (floor division). */
  function NormalizeMonth(y: int, m: int): (r: (int, int))
    ensures 0 <= r.1 < 12
    ensures r.0 * 12 + r.1 == y * 12 + m
  {
    (y + m / 12, m % 12)
  }

  /** `new Date(year, month)`: day 1 of the normalised month. */
  function FirstOfMonth(y: int, m: int): (d: Date)
    ensures Valid(d) && d.day == 1
    ensures MonthIndex(d) == y * 12 + m
  {
    var (ny, nm) := NormalizeMonth(y, m);
    Date(ny, nm, 1)
  }

  /** `d.setMonth(m)`: keep the year's carry and the day; a day past the end of
      the target month runs over into the following month. */
  function SetMonth(d: Date, m: int): (r: Date)
    requires Valid(d)
    ensures Valid(r)
  {
    var (y1, m1) := NormalizeMonth(d.year, m);
    var len := DaysInMonth(y1, m1);
    if d.day <= len then Date(y1, m1, d.day)
    else
      var (y2, m2) := NormalizeMonth(y1, m1 + 1);
      Date(y2, m2, d.day - len)
  }

  /** The date `k` months after `d` as the application computes it:
      `setMonth(d.getMonth() + k)` on a copy of `d`. */
  function ShiftMonths(d: Date, k: int): (r: Date)
    requires Valid(d)
    ensures Valid(r)
    ensures MonthIndex(r) == MonthIndex(d) + k || MonthIndex(r) == MonthIndex(d) + k + 1
  {
    SetMonth(d, d.month + k)
  }

  /** With a day that exists in every month, shifting by `k` months moves
      exactly `k` months along the month axis and keeps the day. */
  lemma ShiftMonthsExact(d: Date, k: int)
    requires Valid(d) && d.day <= 28
    ensures MonthIndex(ShiftMonths(d, k)) == MonthIndex(d) + k
    ensures ShiftMonths(d, k).day == d.day
  {
  }

  /** The date `k` months from `d` with the day clamped to the target month's
      length, so that the result always lies in the target month. */
  function ClampedShift(d: Date, k: int): (r: Date)
    requires Valid(d)
    ensures Valid(r)
    ensures MonthIndex(r) == MonthIndex(d) + k
    ensures r.day <= d.day
  {
    var f := FirstOfMonth(d.year, d.month + k);
    var len := DaysInMonth(f.year, f.month);
    Date(f.year, f.month, if d.day <= len then d.day else len)
  }

  /** On a day every month has, clamping changes nothing. */
  lemma ClampedShiftAgrees(d: Date, k: int)
    requires Valid(d) && d.day <= 28
    ensures ClampedShift(d, k) == ShiftMonths(d, k)
  {
  }

  /** Two valid dates in the same position on the month axis share year and month. */
  lemma MonthIndexInjective(a: Date, b: Date)
    requires Valid(a) && Valid(b)
    requires MonthIndex(a) == MonthIndex(b)
    ensures a.year == b.year && a.month == b.month
  {
    assert (a.year - b.year) * 12 == b.month - a.month;
  }

  /** The first day of the month at position `idx` on the month axis. */
  function MonthAt(idx: int): (d: Date)
    ensures Valid(d) && d.day == 1
    ensures MonthIndex(d) == idx
  {
    FirstOfMonth(0, idx)
  }
}
