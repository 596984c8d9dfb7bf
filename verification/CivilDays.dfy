// libc/calendar.c, "civil <-> days": the two table-free, loop-free conversions,
// written with C's operators, and their agreement with the calendar as counted
// by hand in module Gregorian, over every day number and every valid date.
module CivilDays {
  import opened CInt
  import opened Gregorian

  const DAYS_PER_ERA: int := 146097

  // Day number of 0000-03-01 is -EPOCH_SHIFT.
  const EPOCH_SHIFT: int := 719468

  // The intermediate values both conversions name: the 400-year era, the day
  // and year inside it, the day inside the March-based year, and its month.
  datatype Parts = Parts(era: int, doe: uint32, yoe: uint32, doy: uint32, mp: uint32)

  function SplitDate(year: int, m: uint32, d: uint32): Parts {
    var y := year - (if m <= 2 then 1 else 0);
    var era := Quot(if y >= 0 then y else y - 399, 400);
    var yoe := U32(y - era * 400);
    var mp := U32(m + U32(if m > 2 then -3 else 9));
    var doy := U32(U32(U32(U32(153 * mp) + 2) / 5 + d) - 1);
    var doe := U32(U32(U32(U32(yoe * 365) + yoe / 4) - yoe / 100) + doy);
    Parts(era, doe, yoe, doy, mp)
  }

  function DaysFromCivil(year: int, m: uint32, d: uint32): int {
    var p := SplitDate(year, m, d);
    p.era * 146097 + p.doe - 719468
  }

  function SplitDays(day: int): Parts {
    var z := day + 719468;
    var era := Quot(if z >= 0 then z else z - 146096, 146097);
    SplitDayOfEra(era, U32(z - era * 146097))
  }

  function SplitDayOfEra(era: int, doe: uint32): Parts {
    var yoe := U32(U32(U32(doe - doe / 1460) + doe / 36524) - doe / 146096) / 365;
    var doy := U32(doe - U32(U32(U32(365 * yoe) + yoe / 4) - yoe / 100));
    var mp := U32(U32(5 * doy) + 2) / 153;
    Parts(era, doe, yoe, doy, mp)
  }

  function JoinDate(p: Parts): Date {
    var d := U32(U32(p.doy - U32(U32(153 * p.mp) + 2) / 5) + 1);
    var m := U32(p.mp + U32(if p.mp < 10 then 3 else -9));
    var y := p.yoe + p.era * 400 + (if m <= 2 then 1 else 0);
    Date(y, m, d)
  }

  function CivilFromDays(day: int): Date {
    JoinDate(SplitDays(day))
  }

  // ---- the March-based year ----

  // Days from 0000-03-01 to the 1st of March of year y.
  function MarchStart(y: int): int {
    365 * y + y / 4 - y / 100 + y / 400
  }

  // Days before year yoe of an era.
  function EraYearStart(yoe: int): int {
    365 * yoe + yoe / 4 - yoe / 100
  }

  // Days before month mp of a March-based year: the single linear expression.
  function MarchMonthStart(mp: int): int {
    (153 * mp + 2) / 5
  }

  lemma DivStep4(y: int)
    ensures y / 4 == (y - 1) / 4 + (if y % 4 == 0 then 1 else 0)
  {
  }

  lemma DivStep100(y: int)
    ensures y / 100 == (y - 1) / 100 + (if y % 100 == 0 then 1 else 0)
  {
  }

  lemma DivStep400(y: int)
    ensures y / 400 == (y - 1) / 400 + (if y % 400 == 0 then 1 else 0)
  {
  }

  // Crossing February of year y adds the length of year y.
  lemma MarchStartNext(y: int)
    ensures MarchStart(y) == MarchStart(y - 1) + YearLength(y)
  {
    DivStep4(y);
    DivStep100(y);
    DivStep400(y);
    assert y % 400 == 0 ==> y % 100 == 0;
    assert y % 100 == 0 ==> y % 4 == 0;
  }

  // The count by whole years, in closed form: January is 306 days into the
  // previous March-based year.
  lemma {:induction false} YearStartClosed(y: int)
    ensures YearStart(y) == MarchStart(y - 1) + 306 - EPOCH_SHIFT
    decreases if y >= 1970 then y - 1970 else 1970 - y
  {
    if y > 1970 {
      YearStartClosed(y - 1);
      MarchStartNext(y - 1);
    } else if y < 1970 {
      YearStartClosed(y + 1);
      MarchStartNext(y);
    }
  }

  lemma MarchStartByEra(era: int, yoe: int)
    requires 0 <= yoe <= 399
    ensures MarchStart(400 * era + yoe) == DAYS_PER_ERA * era + EraYearStart(yoe)
  {
    assert (400 * era + yoe) / 4 == 100 * era + yoe / 4;
    assert (400 * era + yoe) / 100 == 4 * era + yoe / 100;
    assert (400 * era + yoe) / 400 == era;
  }

  // The twelve months from March are the calendar's months: month mp starts
  // where January-based counting puts it.
  lemma MarchMonthIsMonth(y: int, m: int)
    requires 1 <= m <= 12
    ensures m > 2 ==> YearStart(y) + MonthStart(y, m) == MarchStart(y) - EPOCH_SHIFT + MarchMonthStart(m - 3)
    ensures m <= 2 ==> YearStart(y) + MonthStart(y, m) == MarchStart(y - 1) - EPOCH_SHIFT + MarchMonthStart(m + 9)
  {
    YearStartClosed(y);
    MarchStartNext(y);
    MonthStartTable(y, m);
  }

  // ---- days_from_civil ----

  lemma FloorOfYears(y: int)
    ensures Quot(if y >= 0 then y else y - 399, 400) == y / 400
  {
  }

  // m + (unsigned)-3 wraps around to m - 3.
  lemma MonthShift(m: uint32)
    requires 1 <= m <= 12
    ensures U32(m + U32(if m > 2 then -3 else 9)) == (if m > 2 then m - 3 else m + 9)
  {
  }

  // No unsigned operation wraps except the intended month shift, and every
  // truncating quotient is the floor quotient.
  lemma SplitDateExact(year: int, m: uint32, d: uint32)
    requires 1 <= m <= 12 && 1 <= d <= 31
    ensures var p := SplitDate(year, m, d);
            var y := if m <= 2 then year - 1 else year;
            && p.era == y / 400 && p.yoe == y % 400
            && p.mp == (if m > 2 then m - 3 else m + 9)
            && p.doy == MarchMonthStart(p.mp) + d - 1 <= 367
            && p.doe == EraYearStart(p.yoe) + p.doy
  {
    hide U32, Quot;
    FloorOfYears(if m <= 2 then year - 1 else year);
    MonthShift(m);
  }

  // The fast forward conversion is the count by whole years and months.
  lemma DaysFromCivilIsDayNumber(date: Date)
    requires 1 <= date.month <= 12 && 1 <= date.day <= 31
    ensures DaysFromCivil(date.year, date.month, date.day) == DayNumber(date)
  {
    var p := SplitDate(date.year, date.month, date.day);
    SplitDateExact(date.year, date.month, date.day);
    MarchMonthIsMonth(date.year, date.month);
    MarchStartByEra(p.era, p.yoe);
  }

  // ---- civil_from_days ----

  // Where a day of the era falls: century c, four-year cycle q inside it,
  // year a inside that, day s inside the four-year cycle.
  lemma YearOfEra(doe: int) returns (c: int, q: int, s: int, a: int)
    requires 0 <= doe < DAYS_PER_ERA
    ensures doe == 36524 * c + 1461 * q + s
    ensures 0 <= c <= 3 && 0 <= q <= 24 && 0 <= s <= 1460 && 0 <= a <= 3
    ensures c < 3 && q == 24 ==> s < 1460
    ensures 365 * a <= s && (a < 3 ==> s < 365 * a + 365)
    ensures (doe - doe / 1460 + doe / 36524 - doe / 146096) / 365 == 100 * c + 4 * q + a
  {
    c := if doe == 146096 then 3 else doe / 36524;
    var r := doe - 36524 * c;
    q, s := r / 1461, r % 1461;
    a := if s == 1460 then 3 else s / 365;
    var t := (24 * c + q + s) / 1460;
    assert doe / 1460 == 25 * c + q + t by {
      assert doe == 1460 * (25 * c + q) + (24 * c + q + s);
    }
    assert doe / 36524 - doe / 146096 == c;
    assert doe - doe / 1460 + c == 365 * (100 * c + 4 * q) + (s - t);
    assert (s - t) / 365 == a;
  }

  lemma ModShift4(q: int, r: int)
    ensures (4 * q + r) % 4 == r % 4
  {
  }

  lemma ModShift100(q: int, r: int)
    ensures (100 * q + r) % 100 == r % 100
  {
  }

  lemma ModShift400(q: int, r: int)
    ensures (400 * q + r) % 400 == r % 400
  {
  }

  // The last day of a four-year cycle is a leap day, and the century rule
  // agrees.
  lemma CycleEndIsLeap(c: int, q: int)
    requires 0 <= c <= 3 && 0 <= q <= 24 && (q == 24 ==> c == 3)
    ensures IsLeap(100 * c + 4 * q + 4)
  {
    ModShift4(25 * c + q + 1, 0);
    if q < 24 {
      ModShift100(c, 4 * q + 4);
    }
  }

  // The quotient expression finds the one year that contains the day.
  lemma YearOfEraContains(doe: int)
    requires 0 <= doe < DAYS_PER_ERA
    ensures var yoe := (doe - doe / 1460 + doe / 36524 - doe / 146096) / 365;
            && 0 <= yoe <= 399
            && 0 <= doe - EraYearStart(yoe) <= 365
            && (doe - EraYearStart(yoe) == 365 ==> IsLeap(yoe + 1))
  {
    hide IsLeap;
    var c, q, s, a := YearOfEra(doe);
    var yoe := 100 * c + 4 * q + a;
    assert EraYearStart(yoe) == 36524 * c + 1461 * q + 365 * a by {
      assert yoe / 4 == 25 * c + q;
      assert yoe / 100 == c;
    }
    if s - 365 * a == 365 {
      CycleEndIsLeap(c, q);
    }
  }

  lemma MonthOfYear(doy: int)
    requires 0 <= doy <= 365
    ensures var mp := (5 * doy + 2) / 153;
            && 0 <= mp <= 11
            && MarchMonthStart(mp) <= doy
            && (mp < 11 ==> doy < MarchMonthStart(mp + 1))
  {
  }

  // Ranges of the intermediates of civil_from_days, without any wrap.
  predicate ExactParts(p: Parts) {
    && p.yoe <= 399
    && p.doy == p.doe - EraYearStart(p.yoe) <= 365
    && (p.doy == 365 ==> IsLeap(p.yoe + 1))
    && p.mp <= 11
    && MarchMonthStart(p.mp) <= p.doy
    && (p.mp < 11 ==> p.doy < MarchMonthStart(p.mp + 1))
  }

  lemma SplitDayOfEraExact(era: int, doe: uint32)
    requires doe < DAYS_PER_ERA
    ensures var p := SplitDayOfEra(era, doe);
            ExactParts(p) && p.era == era && p.doe == doe
  {
    hide U32, IsLeap;
    var p := SplitDayOfEra(era, doe);
    YearOfEraContains(doe);
    assert p.yoe == (doe - doe / 1460 + doe / 36524 - doe / 146096) / 365;
    assert p.doy == doe - EraYearStart(p.yoe);
    MonthOfYear(p.doy);
  }

  lemma FloorOfEras(z: int)
    ensures Quot(if z >= 0 then z else z - 146096, 146097) == z / 146097
  {
  }

  // Every truncating quotient of civil_from_days is the floor quotient.
  lemma SplitDaysExact(day: int)
    ensures var p := SplitDays(day);
            && p.era == (day + EPOCH_SHIFT) / DAYS_PER_ERA
            && p.doe == (day + EPOCH_SHIFT) % DAYS_PER_ERA
            && ExactParts(p)
  {
    hide Quot, SplitDayOfEra, ExactParts;
    var z := day + EPOCH_SHIFT;
    FloorOfEras(z);
    SplitDayOfEraExact(z / DAYS_PER_ERA, z % DAYS_PER_ERA);
  }

  // The leap rule repeats every era.
  lemma LeapByEra(era: int, yoe: int)
    ensures IsLeap(400 * era + yoe) == IsLeap(yoe)
  {
    var y := 400 * era + yoe;
    assert y % 4 == yoe % 4 by { ModShift4(100 * era, yoe); }
    assert y % 100 == yoe % 100 by { ModShift100(4 * era, yoe); }
    assert y % 400 == yoe % 400 by { ModShift400(era, yoe); }
  }

  // The last three expressions of civil_from_days: no wrap survives.
  lemma JoinDateExact(p: Parts)
    requires p.mp <= 11 && MarchMonthStart(p.mp) <= p.doy <= 365
    ensures JoinDate(p) == Date(p.yoe + p.era * 400 + (if p.mp < 10 then 0 else 1),
                                if p.mp < 10 then p.mp + 3 else p.mp - 9,
                                p.doy - MarchMonthStart(p.mp) + 1)
  {
  }

  // A day of a month of the March-based year is a valid day of that month.
  lemma DayFitsMonth(y: int, mp: int, doy: int)
    requires 0 <= mp <= 11 && MarchMonthStart(mp) <= doy <= 365
    requires mp < 11 ==> doy < MarchMonthStart(mp + 1)
    requires doy == 365 ==> IsLeap(y + 1)
    ensures ValidDate(if mp < 10 then Date(y, mp + 3, doy - MarchMonthStart(mp) + 1)
                      else Date(y + 1, mp - 9, doy - MarchMonthStart(mp) + 1))
  {
  }

  lemma JoinDateCorrect(p: Parts)
    requires ExactParts(p)
    ensures var date := JoinDate(p);
            ValidDate(date) && DayNumber(date) == DAYS_PER_ERA * p.era + p.doe - EPOCH_SHIFT
  {
    var date := JoinDate(p);
    JoinDateExact(p);
    LeapByEra(p.era, p.yoe + 1);
    DayFitsMonth(400 * p.era + p.yoe, p.mp, p.doy);
    MarchMonthIsMonth(date.year, date.month);
    MarchStartByEra(p.era, p.yoe);
  }

  // For every integer day number, the fast backward conversion yields a valid
  // date, and the one whose number it is.
  lemma CivilFromDaysCorrect(day: int)
    ensures var date := CivilFromDays(day);
            ValidDate(date) && DayNumber(date) == day
  {
    hide SplitDays, JoinDate;
    SplitDaysExact(day);
    JoinDateCorrect(SplitDays(day));
  }

  // ---- the theorems ----

  // The two conversions are mutual inverses over all day numbers...
  lemma DaysRoundTrip(day: int)
    ensures var date := CivilFromDays(day);
            DaysFromCivil(date.year, date.month, date.day) == day
  {
    CivilFromDaysCorrect(day);
    DaysFromCivilIsDayNumber(CivilFromDays(day));
  }

  // ... and over all valid dates.
  lemma DateRoundTrip(date: Date)
    requires ValidDate(date)
    ensures CivilFromDays(DaysFromCivil(date.year, date.month, date.day)) == date
  {
    DaysFromCivilIsDayNumber(date);
    CivilFromDaysCorrect(DayNumber(date));
    DayNumberOrders(CivilFromDays(DayNumber(date)), date);
  }

  // The fast form refines the naive one.
  lemma FastIsNaive(day: int)
    ensures CivilFromDays(day) == NaiveDate(day)
  {
    CivilFromDaysCorrect(day);
    DateByYearsCorrect(1970, day);
    DayNumberOrders(CivilFromDays(day), NaiveDate(day));
  }

  // Consecutive day numbers are consecutive dates.
  lemma CivilFromDaysSuccessor(day: int)
    ensures ValidDate(CivilFromDays(day))
    ensures CivilFromDays(day + 1) == NextDate(CivilFromDays(day))
  {
    CivilFromDaysCorrect(day);
    CivilFromDaysCorrect(day + 1);
    NextDateIsNextDay(CivilFromDays(day));
    DayNumberOrders(CivilFromDays(day + 1), NextDate(CivilFromDays(day)));
  }

  // Day-number order is (year, month, day) order, on both sides of the epoch.
  lemma CivilFromDaysOrders(a: int, b: int)
    ensures a < b <==> DateLess(CivilFromDays(a), CivilFromDays(b))
  {
    CivilFromDaysCorrect(a);
    CivilFromDaysCorrect(b);
    DayNumberOrders(CivilFromDays(a), CivilFromDays(b));
  }
}
