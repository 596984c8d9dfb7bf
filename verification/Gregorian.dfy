// The proleptic Gregorian calendar as everybody learns it: a leap rule, month
// lengths, and day numbers counted by whole years and then whole months. This
// is the "obvious way" that libc/calendar.c replaces, and it serves here as
// the specification of the table-free conversions.
module Gregorian {

  datatype Date = Date(year: int, month: int, day: int)

  predicate IsLeap(y: int) {
    y % 4 == 0 && (y % 100 != 0 || y % 400 == 0)
  }

  function YearLength(y: int): int {
    if IsLeap(y) then 366 else 365
  }

  function MonthLength(y: int, m: int): int
    requires 1 <= m <= 12
  {
    if m == 2 then (if IsLeap(y) then 29 else 28)
    else if m == 4 || m == 6 || m == 9 || m == 11 then 30
    else 31
  }

  predicate ValidDate(d: Date) {
    1 <= d.month <= 12 && 1 <= d.day <= MonthLength(d.year, d.month)
  }

  // Days from 1970-01-01 to the first day of year y, one year at a time.
  function YearStart(y: int): int
    decreases if y >= 1970 then y - 1970 else 1970 - y
  {
    if y == 1970 then 0
    else if y > 1970 then YearStart(y - 1) + YearLength(y - 1)
    else YearStart(y + 1) - YearLength(y)
  }

  // Days from the first day of year y to the first day of its month m, one
  // month at a time. m == 13 is the end of the year.
  function MonthStart(y: int, m: int): int
    requires 1 <= m <= 13
    decreases m
  {
    if m == 1 then 0 else MonthStart(y, m - 1) + MonthLength(y, m - 1)
  }

  // The number of a date, counting 1970-01-01 as day 0.
  function DayNumber(d: Date): int
    requires 1 <= d.month <= 12
  {
    YearStart(d.year) + MonthStart(d.year, d.month) + d.day - 1
  }

  // The naive conversion back: step over whole years until what is left is
  // less than one, then over whole months.
  function DateByYears(y: int, rest: int): Date
    decreases if rest < 0 then 366 - rest else rest
  {
    if rest < 0 then DateByYears(y - 1, rest + YearLength(y - 1))
    else if rest >= YearLength(y) then DateByYears(y + 1, rest - YearLength(y))
    else DateByMonths(y, 1, rest)
  }

  function DateByMonths(y: int, m: int, rest: int): Date
    requires 1 <= m <= 12
    decreases 12 - m
  {
    if m < 12 && rest >= MonthLength(y, m) then DateByMonths(y, m + 1, rest - MonthLength(y, m))
    else Date(y, m, rest + 1)
  }

  function NaiveDate(z: int): Date {
    DateByYears(1970, z)
  }

  // The day after: next day, next month by its true length, or next year.
  function NextDate(d: Date): Date
    requires ValidDate(d)
  {
    if d.day < MonthLength(d.year, d.month) then Date(d.year, d.month, d.day + 1)
    else if d.month < 12 then Date(d.year, d.month + 1, 1)
    else Date(d.year + 1, 1, 1)
  }

  predicate DateLess(a: Date, b: Date) {
    || a.year < b.year
    || (a.year == b.year && a.month < b.month)
    || (a.year == b.year && a.month == b.month && a.day < b.day)
  }

  // ---- properties of the counting itself ----

  lemma YearStartNext(y: int)
    ensures YearStart(y + 1) == YearStart(y) + YearLength(y)
  {
  }

  lemma {:induction false} YearStartMonotone(a: int, b: int)
    requires a <= b
    ensures YearStart(b) - YearStart(a) >= 365 * (b - a)
    decreases b - a
  {
    if a < b {
      YearStartNext(a);
      YearStartMonotone(a + 1, b);
    }
  }

  // The month offsets in closed tabular form.
  lemma MonthStartTable(y: int, m: int)
    requires 1 <= m <= 13
    ensures var leap := if IsLeap(y) then 1 else 0;
            MonthStart(y, m) ==
            (match m
             case 1 => 0
             case 2 => 31
             case 3 => 59 + leap
             case 4 => 90 + leap
             case 5 => 120 + leap
             case 6 => 151 + leap
             case 7 => 181 + leap
             case 8 => 212 + leap
             case 9 => 243 + leap
             case 10 => 273 + leap
             case 11 => 304 + leap
             case 12 => 334 + leap
             case _ => 365 + leap)
  {
    if m > 1 { MonthStartTable(y, m - 1); }
  }

  // A month's days lie between its start and any later month's start.
  lemma {:induction false} MonthStartMonotone(y: int, a: int, b: int)
    requires 1 <= a < b <= 13
    ensures MonthStart(y, a) + MonthLength(y, a) <= MonthStart(y, b)
    decreases b
  {
    if a + 1 < b { MonthStartMonotone(y, a, b - 1); }
  }

  lemma DayOfYearRange(d: Date)
    requires ValidDate(d)
    ensures 0 <= MonthStart(d.year, d.month) + d.day - 1 < YearLength(d.year)
  {
    MonthStartTable(d.year, d.month);
  }

  // Day numbers order valid dates exactly as (year, month, day) does.
  lemma DayNumberOrders(a: Date, b: Date)
    requires ValidDate(a) && ValidDate(b)
    ensures DayNumber(a) < DayNumber(b) <==> DateLess(a, b)
    ensures DayNumber(a) == DayNumber(b) <==> a == b
  {
    if DateLess(a, b) {
      DayNumberMonotone(a, b);
    } else if DateLess(b, a) {
      DayNumberMonotone(b, a);
    }
  }

  lemma DayNumberMonotone(a: Date, b: Date)
    requires ValidDate(a) && ValidDate(b) && DateLess(a, b)
    ensures DayNumber(a) < DayNumber(b)
  {
    if a.year < b.year {
      DayOfYearRange(a);
      DayOfYearRange(b);
      YearStartNext(a.year);
      YearStartMonotone(a.year + 1, b.year);
    } else if a.month < b.month {
      MonthStartMonotone(a.year, a.month, b.month);
    }
  }

  // NextDate is the successor in day numbers.
  lemma NextDateIsNextDay(d: Date)
    requires ValidDate(d)
    ensures ValidDate(NextDate(d))
    ensures DayNumber(NextDate(d)) == DayNumber(d) + 1
  {
    if d.month == 12 {
      hide YearStart;
      MonthStartTable(d.year, 12);
      YearStartNext(d.year);
    } else {
      hide YearStart, IsLeap;
    }
  }

  // The naive conversion really inverts the naive count.
  lemma {:induction false} DateByMonthsCorrect(y: int, m: int, rest: int)
    requires 1 <= m <= 12
    requires 0 <= rest < MonthStart(y, 13) - MonthStart(y, m)
    ensures var d := DateByMonths(y, m, rest);
            && ValidDate(d) && d.year == y
            && MonthStart(y, d.month) + d.day - 1 == MonthStart(y, m) + rest
    decreases 12 - m
  {
    if m < 12 && rest >= MonthLength(y, m) {
      DateByMonthsCorrect(y, m + 1, rest - MonthLength(y, m));
    }
  }

  lemma {:induction false} DateByYearsCorrect(y: int, rest: int)
    ensures var d := DateByYears(y, rest);
            ValidDate(d) && DayNumber(d) == YearStart(y) + rest
    decreases if rest < 0 then 366 - rest else rest
  {
    if rest < 0 {
      YearStartNext(y - 1);
      DateByYearsCorrect(y - 1, rest + YearLength(y - 1));
    } else if rest >= YearLength(y) {
      YearStartNext(y);
      DateByYearsCorrect(y + 1, rest - YearLength(y));
    } else {
      MonthStartTable(y, 13);
      DateByMonthsCorrect(y, 1, rest);
    }
  }
}
