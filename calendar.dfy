/**
 * Proleptic Gregorian calendar arithmetic, as Go's `time` package does it for a
 * valid date: month and weekday names (`time.Month.String`, `time.Weekday.String`)
 * and the day of the week.
 */
module Calendar {

  predicate IsLeap(y: int) {
    y % 4 == 0 && (y % 100 != 0 || y % 400 == 0)
  }

  function YearLength(y: int): int {
    if IsLeap(y) then 366 else 365
  }

  function DaysInMonth(y: int, m: int): (n: int)
    requires 1 <= m <= 12
    ensures 28 <= n <= 31
  {
    if m == 2 then (if IsLeap(y) then 29 else 28)
    else if m == 4 || m == 6 || m == 9 || m == 11 then 30
    else 31
  }

  predicate ValidDate(y: int, m: int, d: int) {
    1 <= m <= 12 && 1 <= d <= DaysInMonth(y, m)
  }

  /** Days from 0001-01-01 to the first of January of `y` (negative before year 1). */
  function DaysBeforeYear(y: int): int {
    365 * (y - 1) + (y - 1) / 4 - (y - 1) / 100 + (y - 1) / 400
  }

  /** Days from the first of January of `y` to the first of month `m` (`m == 13`: the next year). */
  function DaysBeforeMonth(y: int, m: int): int
    requires 1 <= m <= 13
  {
    if m == 1 then 0 else DaysBeforeMonth(y, m - 1) + DaysInMonth(y, m - 1)
  }

  /** Days from 0001-01-01 to the date; 0001-01-01 is day 0. */
  function DayNumber(y: int, m: int, d: int): int
    requires 1 <= m <= 12
  {
    DaysBeforeYear(y) + DaysBeforeMonth(y, m) + d - 1
  }

  /** `time.Weekday` of a date: 0 is Sunday; day 0 (0001-01-01) was a Monday. */
  function Weekday(y: int, m: int, d: int): (w: nat)
    requires 1 <= m <= 12
    ensures w < 7
  {
    (DayNumber(y, m, d) + 1) % 7
  }

  /** The day after a valid date. */
  function NextDay(y: int, m: int, d: int): (r: (int, int, int))
    requires ValidDate(y, m, d)
    ensures ValidDate(r.0, r.1, r.2)
  {
    if d < DaysInMonth(y, m) then (y, m, d + 1)
    else if m < 12 then (y, m + 1, 1)
    else (y + 1, 1, 1)
  }

  /** `time.Month.String`. */
  function MonthName(m: int): string
    requires 1 <= m <= 12
  {
    ["January", "February", "March", "April", "May", "June", "July",
     "August", "September", "October", "November", "December"][m - 1]
  }

  /** `time.Weekday.String`. */
  function WeekdayName(w: nat): string
    requires w < 7
  {
    ["Sunday", "Monday", "Tuesday", "Wednesday", "Thursday", "Friday", "Saturday"][w]
  }

  lemma YearLengthStep(y: int)
    ensures DaysBeforeYear(y + 1) == DaysBeforeYear(y) + YearLength(y)
  {
    var k := y - 1;
    assert (k + 1) / 4 == k / 4 + (if y % 4 == 0 then 1 else 0);
    assert (k + 1) / 100 == k / 100 + (if y % 100 == 0 then 1 else 0);
    assert (k + 1) / 400 == k / 400 + (if y % 400 == 0 then 1 else 0);
  }

  lemma MonthsFillYear(y: int)
    ensures DaysBeforeMonth(y, 13) == YearLength(y)
  {
    assert DaysBeforeMonth(y, 2) == DaysBeforeMonth(y, 1) + DaysInMonth(y, 1);
    assert DaysBeforeMonth(y, 3) == DaysBeforeMonth(y, 2) + DaysInMonth(y, 2);
    assert DaysBeforeMonth(y, 4) == DaysBeforeMonth(y, 3) + DaysInMonth(y, 3);
    assert DaysBeforeMonth(y, 5) == DaysBeforeMonth(y, 4) + DaysInMonth(y, 4);
    assert DaysBeforeMonth(y, 6) == DaysBeforeMonth(y, 5) + DaysInMonth(y, 5);
    assert DaysBeforeMonth(y, 7) == DaysBeforeMonth(y, 6) + DaysInMonth(y, 6);
    assert DaysBeforeMonth(y, 8) == DaysBeforeMonth(y, 7) + DaysInMonth(y, 7);
    assert DaysBeforeMonth(y, 9) == DaysBeforeMonth(y, 8) + DaysInMonth(y, 8);
    assert DaysBeforeMonth(y, 10) == DaysBeforeMonth(y, 9) + DaysInMonth(y, 9);
    assert DaysBeforeMonth(y, 11) == DaysBeforeMonth(y, 10) + DaysInMonth(y, 10);
    assert DaysBeforeMonth(y, 12) == DaysBeforeMonth(y, 11) + DaysInMonth(y, 11);
    assert DaysBeforeMonth(y, 13) == DaysBeforeMonth(y, 12) + DaysInMonth(y, 12);
  }

  /** Consecutive dates have consecutive day numbers. */
  lemma NextDayNumber(y: int, m: int, d: int)
    requires ValidDate(y, m, d)
    ensures var n := NextDay(y, m, d); DayNumber(n.0, n.1, n.2) == DayNumber(y, m, d) + 1
  {
    if d == DaysInMonth(y, m) && m == 12 {
      YearLengthStep(y);
      MonthsFillYear(y);
    }
  }

  /** The weekday advances by one, cyclically, from one day to the next. */
  lemma NextDayWeekday(y: int, m: int, d: int)
    requires ValidDate(y, m, d)
    ensures var n := NextDay(y, m, d); Weekday(n.0, n.1, n.2) == (Weekday(y, m, d) + 1) % 7
  {
    NextDayNumber(y, m, d);
  }

  /** Anchors: the Unix epoch was a Thursday, 2020-05-03 a Sunday. */
  lemma KnownWeekdays()
    ensures WeekdayName(Weekday(1970, 1, 1)) == "Thursday"
    ensures WeekdayName(Weekday(2020, 5, 3)) == "Sunday"
  {
  }
}
