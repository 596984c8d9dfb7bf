// libc/calendar.c, "breaking a time_t apart" and "putting one back together":
// gmtime_r and timegm over a struct tm that both overwrite in place.
module CalendarTime {
  import opened CInt
  import opened Gregorian
  import opened CivilDays

  const SECONDS_PER_DAY: int := 86400

  // The contents of a struct tm.
  datatype TmValue = TmValue(
    sec: int32, min: int32, hour: int32, mday: int32, mon: int32, year: int32,
    wday: int32, yday: int32, isdst: int32, gmtoff: int64, zone: string)

  // What gmtime_r leaves in the struct, with C's truncating operators.
  function Broken(t: int64): TmValue {
    var q := Quot(t, 86400);
    var r := Rem(t, 86400);
    var days := if r < 0 then q - 1 else q;
    var rem := if r < 0 then r + 86400 else r;
    var date := CivilFromDays(days);
    TmValue(
      ToInt32(Rem(rem, 60)),
      ToInt32(Rem(Quot(rem, 60), 60)),
      ToInt32(Quot(rem, 3600)),
      ToInt32(date.day),
      ToInt32(date.month - 1),
      ToInt32(date.year - 1900),
      ToInt32(Rem(Rem(days, 7) + 11, 7)),
      ToInt32(days - DaysFromCivil(date.year, 1, 1)),
      0, 0, "UTC")
  }

  // timegm's fold of months into years: the year it asks about...
  function FoldedYear(v: TmValue): int {
    v.year + 1900 + Quot(v.mon, 12) - (if Rem(v.mon, 12) < 0 then 1 else 0)
  }

  // ... and the month, from 0.
  function FoldedMonth(v: TmValue): int {
    var month := Rem(v.mon, 12);
    if month < 0 then month + 12 else month
  }

  function FoldedDays(v: TmValue): int {
    DaysFromCivil(FoldedYear(v), U32(U32(FoldedMonth(v)) + 1), 1) + v.mday - 1
  }

  // The single second count that timegm folds every field into.
  function FoldedSeconds(v: TmValue): int {
    FoldedDays(v) * 86400 + v.hour * 3600 + v.min * 60 + v.sec
  }

  // ---- the struct itself ----

  class Tm {
    var sec: int32
    var min: int32
    var hour: int32
    var mday: int32
    var mon: int32
    var year: int32
    var wday: int32
    var yday: int32
    var isdst: int32
    var gmtoff: int64
    var zone: string

    function Value(): TmValue
      reads this
    {
      TmValue(sec, min, hour, mday, mon, year, wday, yday, isdst, gmtoff, zone)
    }

    constructor (v: TmValue)
      ensures Value() == v
    {
      sec, min, hour, mday, mon, year := v.sec, v.min, v.hour, v.mday, v.mon, v.year;
      wday, yday, isdst, gmtoff, zone := v.wday, v.yday, v.isdst, v.gmtoff, v.zone;
    }

    // gmtime_r
    method Gmtime(t: int64)
      modifies this
      ensures Value() == Broken(t)
    {
      hide CivilFromDays, DaysFromCivil, Quot, Rem, ToInt32;
      var days := Quot(t, 86400);
      var rem := Rem(t, 86400);
      if rem < 0 {
        rem := rem + 86400;
        days := days - 1;
      }
      var date := CivilFromDays(days);
      sec := ToInt32(Rem(rem, 60));
      min := ToInt32(Rem(Quot(rem, 60), 60));
      hour := ToInt32(Quot(rem, 3600));
      mday := ToInt32(date.day);
      mon := ToInt32(date.month - 1);
      year := ToInt32(date.year - 1900);
      wday := ToInt32(Rem(Rem(days, 7) + 11, 7));
      yday := ToInt32(days - DaysFromCivil(date.year, 1, 1));
      isdst, gmtoff, zone := 0, 0, "UTC";
    }

    // timegm: fold, then hand the caller back a normalised struct.
    method Timegm() returns (result: int64)
      modifies this
      ensures result == FoldedSeconds(old(Value()))
      ensures Value() == Broken(result)
    {
      hide CivilFromDays, DaysFromCivil, Broken, Quot, Rem, U32;
      ghost var was := Value();
      var y := year + 1900;
      var month: int := mon;
      y := y + Quot(month, 12);
      month := Rem(month, 12);
      if month < 0 {
        month := month + 12;
        y := y - 1;
      }
      var days := DaysFromCivil(y, U32(U32(month) + 1), 1) + mday - 1;
      var secs := days * 86400 + hour * 3600 + min * 60 + sec;
      FoldedSecondsFits(was);
      result := secs;
      Gmtime(result);
    }
  }

  // ---- what the fields mean ----

  // The year of the civil date of an instant.
  function CivilYear(t: int64): int {
    CivilFromDays(t / SECONDS_PER_DAY).year
  }

  // Whether that year minus 1900 fits tm_year.
  predicate YearFits(t: int64) {
    FitsInt32(CivilYear(t) - 1900)
  }

  // A struct tm in which every field is in range and every field agrees with
  // the others.
  predicate Canonical(v: TmValue) {
    var date := Date(v.year + 1900, v.mon + 1, v.mday);
    && 0 <= v.sec < 60 && 0 <= v.min < 60 && 0 <= v.hour < 24
    && ValidDate(date)
    && v.wday == (DayNumber(date) + 4) % 7
    && v.yday == MonthStart(date.year, date.month) + date.day - 1
    && v.isdst == 0 && v.gmtoff == 0 && v.zone == "UTC"
  }

  // Truncation with the correction step is floor division, on both sides of
  // the epoch.
  lemma FloorOfSeconds(t: int)
    ensures var q := Quot(t, 86400);
            var r := Rem(t, 86400);
            && (if r < 0 then q - 1 else q) == t / SECONDS_PER_DAY
            && (if r < 0 then r + 86400 else r) == t % SECONDS_PER_DAY
  {
  }

  // The weekday expression is (days + 4) mod 7 and never negative.
  lemma WeekdayExact(days: int)
    ensures Rem(Rem(days, 7) + 11, 7) == (days + 4) % 7
  {
  }

  lemma TimeOfDayExact(rest: int)
    requires 0 <= rest < SECONDS_PER_DAY
    ensures Rem(rest, 60) == rest % 60 && Rem(Quot(rest, 60), 60) == rest / 60 % 60
    ensures Quot(rest, 3600) == rest / 3600
    ensures 0 <= rest % 60 < 60 && 0 <= rest / 60 % 60 < 60 && 0 <= rest / 3600 < 24
  {
  }

  // Every field gmtime_r stores, in terms of the civil date and floor division.
  lemma BrokenFields(t: int64)
    ensures var v := Broken(t);
            var date := CivilFromDays(t / SECONDS_PER_DAY);
            var rest := t % SECONDS_PER_DAY;
            && ValidDate(date) && DayNumber(date) == t / SECONDS_PER_DAY
            && v.hour == rest / 3600 && v.min == rest / 60 % 60 && v.sec == rest % 60
            && v.mday == date.day && v.mon == date.month - 1
            && v.year == ToInt32(date.year - 1900)
            && v.wday == (t / SECONDS_PER_DAY + 4) % 7
            && v.yday == MonthStart(date.year, date.month) + date.day - 1
            && v.isdst == 0 && v.gmtoff == 0 && v.zone == "UTC"
  {
    hide CivilFromDays, DaysFromCivil, Quot, Rem, ToInt32;
    var days, rest := t / SECONDS_PER_DAY, t % SECONDS_PER_DAY;
    var date := CivilFromDays(days);
    FloorOfSeconds(t);
    TimeOfDayExact(rest);
    WeekdayExact(days);
    CivilFromDaysCorrect(days);
    DayOfYearRange(date);
    assert days - DaysFromCivil(date.year, 1, 1) == MonthStart(date.year, date.month) + date.day - 1 by {
      DaysFromCivilIsDayNumber(Date(date.year, 1, 1));
    }
  }

  // yday reaches 365 only in leap years.
  lemma YdayRange(t: int64)
    ensures 0 <= Broken(t).yday < YearLength(CivilYear(t))
  {
    hide CivilFromDays, Broken;
    BrokenFields(t);
    DayOfYearRange(CivilFromDays(t / SECONDS_PER_DAY));
  }

  lemma NextWeekday(days: int)
    ensures (days + 1 + 4) % 7 == ((days + 4) % 7 + 1) % 7
    ensures (days + DAYS_PER_ERA + 4) % 7 == (days + 4) % 7
  {
    assert DAYS_PER_ERA == 7 * 20871;
  }

  lemma LaterDay(t: int, k: int)
    ensures (t + k * SECONDS_PER_DAY) / SECONDS_PER_DAY == t / SECONDS_PER_DAY + k
  {
  }

  // Weekdays advance by one a day and repeat every 400 years.
  lemma WeekdayCycle(t: int64)
    requires FitsInt64(t + DAYS_PER_ERA * SECONDS_PER_DAY)
    ensures Broken(t + SECONDS_PER_DAY).wday == (Broken(t).wday + 1) % 7
    ensures Broken(t + DAYS_PER_ERA * SECONDS_PER_DAY).wday == Broken(t).wday
  {
    hide CivilFromDays, Broken;
    BrokenFields(t);
    BrokenFields(t + SECONDS_PER_DAY);
    BrokenFields(t + DAYS_PER_ERA * SECONDS_PER_DAY);
    LaterDay(t, 1);
    LaterDay(t, DAYS_PER_ERA);
    NextWeekday(t / SECONDS_PER_DAY);
  }

  // ---- timegm ----

  lemma FloorOfMonths(mon: int)
    ensures var q := Quot(mon, 12);
            var r := Rem(mon, 12);
            && q - (if r < 0 then 1 else 0) == mon / 12
            && (if r < 0 then r + 12 else r) == mon % 12
  {
  }

  // Months are carried into years by floor division, and the result is the
  // exact sum.
  lemma FoldedSecondsExact(v: TmValue)
    ensures var year := v.year + 1900 + v.mon / 12;
            var month := v.mon % 12 + 1;
            && FoldedYear(v) == year && FoldedMonth(v) == month - 1
            && FoldedDays(v) == YearStart(year) + MonthStart(year, month) + v.mday - 1
            && FoldedSeconds(v)
               == (YearStart(year) + MonthStart(year, month) + v.mday - 1) * SECONDS_PER_DAY
                  + v.hour * 3600 + v.min * 60 + v.sec
  {
    hide DaysFromCivil, Quot, Rem, YearStart, MonthStart, U32;
    FloorOfMonths(v.mon);
    DaysFromCivilIsDayNumber(Date(FoldedYear(v), FoldedMonth(v) + 1, 1));
  }

  lemma YearStartBounds(y: int)
    requires -0x1_0000_0000 < y < 0x1_0000_0000
    ensures -366 * 0x1_0000_0000 - EPOCH_SHIFT < YearStart(y) < 366 * 0x1_0000_0000
  {
    YearStartClosed(y);
  }

  lemma FoldedDaysBounds(v: TmValue)
    ensures -0x1_0000_0000 < FoldedYear(v) < 0x1_0000_0000
    ensures -367 * 0x1_0000_0000 < FoldedDays(v) < 367 * 0x1_0000_0000
  {
    FoldedSecondsExact(v);
    YearStartBounds(FoldedYear(v));
    MonthStartTable(FoldedYear(v), FoldedMonth(v) + 1);
  }

  lemma FoldedSecondsFits(v: TmValue)
    ensures FitsInt64(FoldedSeconds(v))
  {
    FoldedDaysBounds(v);
  }

  // No 64-bit intermediate of timegm overflows, for any 32-bit fields.
  lemma TimegmNoOverflow(v: TmValue)
    ensures var y := FoldedYear(v) - (if FoldedMonth(v) < 2 then 1 else 0);
            var p := SplitDate(FoldedYear(v), FoldedMonth(v) + 1, 1);
            && FitsInt64(v.year + 1900 + Quot(v.mon, 12)) && FitsInt64(y - 399)
            && FitsInt64(p.era * 400) && FitsInt64(y - p.era * 400)
            && FitsInt64(p.era * 146097) && FitsInt64(p.era * 146097 + p.doe)
            && FitsInt64(FoldedDays(v)) && FitsInt64(FoldedDays(v) * 86400)
            && FitsInt64(FoldedDays(v) * 86400 + v.hour * 3600)
            && FitsInt64(FoldedDays(v) * 86400 + v.hour * 3600 + v.min * 60)
            && FitsInt64(FoldedSeconds(v))
  {
    FoldedDaysBounds(v);
    FoldedSecondsExact(v);
    SplitDateExact(FoldedYear(v), FoldedMonth(v) + 1, 1);
  }

  // No 64-bit intermediate of gmtime_r overflows, for any 64-bit time_t.
  lemma GmtimeNoOverflow(t: int64)
    ensures var days := t / SECONDS_PER_DAY;
            var p := SplitDays(days);
            && FitsInt64(days + 719468) && FitsInt64(days + 719468 - 146096)
            && FitsInt64(p.era * 146097) && FitsInt64(p.yoe + p.era * 400 + 1)
            && FitsInt64(CivilYear(t) - 1900) && FitsInt64(YearStart(CivilYear(t)))
  {
    var days := t / SECONDS_PER_DAY;
    SplitDaysExact(days);
    JoinDateExact(SplitDays(days));
    YearStartClosed(CivilYear(t));
  }

  // ---- round trips ----

  // timegm of gmtime_r's output is the stored date at the right time of day.
  lemma FoldedSecondsOfBroken(t: int64)
    ensures var v := Broken(t);
            var date := CivilFromDays(t / SECONDS_PER_DAY);
            && ValidDate(date)
            && FoldedSeconds(v)
               == DayNumber(Date(v.year + 1900, date.month, date.day)) * SECONDS_PER_DAY + t % SECONDS_PER_DAY
  {
    hide CivilFromDays, Broken, FoldedYear, FoldedMonth, FoldedDays, FoldedSeconds, ToInt32, YearStart, MonthStart;
    BrokenFields(t);
    FoldedSecondsExact(Broken(t));
    TimeOfDayJoin(t % SECONDS_PER_DAY);
  }

  lemma TimeOfDayJoin(rest: int)
    ensures rest / 3600 * 3600 + rest / 60 % 60 * 60 + rest % 60 == rest
  {
  }

  // timegm undoes gmtime_r exactly when the year fits tm_year.
  lemma TimegmUndoesGmtime(t: int64)
    ensures FoldedSeconds(Broken(t)) == t <==> YearFits(t)
  {
    hide CivilFromDays, Broken, FoldedSeconds, ToInt32, YearStart, MonthStart, IsLeap;
    var date := CivilFromDays(t / SECONDS_PER_DAY);
    var year := Broken(t).year + 1900;
    BrokenFields(t);
    FoldedSecondsOfBroken(t);
    if !YearFits(t) {
      WrappedYearMovesDate(date, year);
      assert DayNumber(Date(year, date.month, date.day)) != t / SECONDS_PER_DAY;
    }
  }

  // The same month and day of another year never have the same day number.
  lemma WrappedYearMovesDate(date: Date, year: int)
    requires ValidDate(date) && year != date.year
    ensures DayNumber(Date(year, date.month, date.day)) != DayNumber(date)
  {
    var a, b := if year < date.year then year else date.year, if year < date.year then date.year else year;
    YearStartNext(a);
    YearStartMonotone(a + 1, b);
    MonthStartTable(a, date.month);
    MonthStartTable(b, date.month);
  }

  const FIRST_INSTANT: int := -67768040609740800
  const LAST_INSTANT: int := 67768036191676799

  lemma RangeYearStarts()
    ensures YearStart(-2147481748) == FIRST_INSTANT / SECONDS_PER_DAY == -784352321872
    ensures YearStart(2147485548) == LAST_INSTANT / SECONDS_PER_DAY + 1 == 784352270737
  {
    hide YearStart;
    YearStartClosed(-2147481748);
    YearStartClosed(2147485548);
  }

  // The years that fit are exactly the instants between two constants.
  lemma YearFitsRange(t: int64)
    ensures YearFits(t) <==> FIRST_INSTANT <= t <= LAST_INSTANT
  {
    hide CivilFromDays, YearStart;
    var days := t / SECONDS_PER_DAY;
    CivilFromDaysCorrect(days);
    YearBeganBy(CivilFromDays(days), -2147481748);
    YearBeganBy(CivilFromDays(days), 2147485548);
    RangeYearStarts();
  }

  lemma YearBeganBy(date: Date, year: int)
    requires ValidDate(date)
    ensures date.year >= year <==> DayNumber(date) >= YearStart(year)
  {
    DayOfYearRange(date);
    if date.year >= year {
      YearStartMonotone(year, date.year);
    } else {
      YearStartNext(date.year);
      YearStartMonotone(date.year + 1, year);
    }
  }

  // gmtime_r's output is canonical when the year fits.
  lemma BrokenIsCanonical(t: int64)
    ensures YearFits(t) ==> Canonical(Broken(t))
  {
    hide CivilFromDays, Broken, MonthStart, YearStart, ToInt32;
    BrokenFields(t);
  }

  lemma TimeOfDaySplit(days: int, h: int, m: int, s: int)
    requires 0 <= h < 24 && 0 <= m < 60 && 0 <= s < 60
    ensures var t := days * SECONDS_PER_DAY + h * 3600 + m * 60 + s;
            var rest := t % SECONDS_PER_DAY;
            && t / SECONDS_PER_DAY == days
            && rest / 3600 == h && rest / 60 % 60 == m && rest % 60 == s
  {
    var t := days * SECONDS_PER_DAY + h * 3600 + m * 60 + s;
    var rest := h * 3600 + m * 60 + s;
    assert t / SECONDS_PER_DAY == days && t % SECONDS_PER_DAY == rest;
    assert rest / 60 == h * 60 + m;
  }

  lemma BrokenOfCanonical(v: TmValue, t: int64)
    requires Canonical(v) && t == FoldedSeconds(v)
    ensures Broken(t) == v
  {
    hide CivilFromDays, Broken, FoldedYear, FoldedMonth, FoldedDays, FoldedSeconds, MonthStart, YearStart;
    var date := Date(v.year + 1900, v.mon + 1, v.mday);
    FoldedSecondsExact(v);
    TimeOfDaySplit(DayNumber(date), v.hour, v.min, v.sec);
    BrokenFields(t);
    assert CivilFromDays(t / SECONDS_PER_DAY) == date by {
      DayNumberOrders(CivilFromDays(t / SECONDS_PER_DAY), date);
    }
  }

  // The canonical structs are exactly the ones timegm leaves alone.
  lemma CanonicalIsFixedPoint(v: TmValue)
    ensures FitsInt64(FoldedSeconds(v))
    ensures Broken(FoldedSeconds(v)) == v <==> Canonical(v)
  {
    hide CivilFromDays, Broken, FoldedSeconds, YearFits, Canonical;
    FoldedSecondsFits(v);
    var t: int64 := FoldedSeconds(v);
    if Broken(t) == v {
      TimegmUndoesGmtime(t);
      BrokenIsCanonical(t);
    }
    if Canonical(v) {
      BrokenOfCanonical(v, t);
    }
  }

  // Normalising once is enough: whenever the normalised year fits tm_year, and
  // only then, a second timegm returns the same count; the struct is then
  // canonical and the second call changes nothing.
  lemma TimegmNormalises(v: TmValue)
    ensures FitsInt64(FoldedSeconds(v))
    ensures var t: int64 := FoldedSeconds(v);
            && (FoldedSeconds(Broken(t)) == t <==> YearFits(t))
            && (YearFits(t) ==> Canonical(Broken(t)))
  {
    hide CivilFromDays, Broken, FoldedSeconds, YearFits, Canonical;
    FoldedSecondsFits(v);
    TimegmUndoesGmtime(FoldedSeconds(v));
    BrokenIsCanonical(FoldedSeconds(v));
  }

  // ---- calendar arithmetic by timegm ----

  // Day 0 of a month is the last day of the month before it.
  lemma DayZeroIsLastOfPrevious(v: TmValue)
    requires FitsInt32(v.mon - 1)
    ensures var year := v.year + 1900 + (v.mon - 1) / 12;
            var last := MonthLength(year, (v.mon - 1) % 12 + 1);
            FoldedSeconds(v.(mday := 0)) == FoldedSeconds(v.(mon := v.mon - 1, mday := last))
  {
    hide FoldedYear, FoldedMonth, FoldedDays, FoldedSeconds, YearStart;
    var year := v.year + 1900 + (v.mon - 1) / 12;
    var month := (v.mon - 1) % 12 + 1;
    var last := MonthLength(year, month);
    FoldedSecondsExact(v.(mday := 0));
    FoldedSecondsExact(v.(mon := v.mon - 1, mday := last));
    if month == 12 {
      assert v.mon % 12 == 0 && v.mon / 12 == (v.mon - 1) / 12 + 1;
      YearStartNext(year);
      MonthStartTable(year, 12);
    } else {
      assert v.mon % 12 == month && v.mon / 12 == (v.mon - 1) / 12;
    }
  }

  // Twelve months are a year.
  lemma TwelveMonthsAreAYear(v: TmValue)
    requires FitsInt32(v.mon + 12) && FitsInt32(v.year + 1)
    ensures FoldedSeconds(v.(mon := v.mon + 12)) == FoldedSeconds(v.(year := v.year + 1))
  {
    hide FoldedYear, FoldedMonth, FoldedDays, FoldedSeconds, YearStart, MonthStart;
    FoldedSecondsExact(v.(mon := v.mon + 12));
    FoldedSecondsExact(v.(year := v.year + 1));
    assert (v.mon + 12) / 12 == v.mon / 12 + 1 && (v.mon + 12) % 12 == v.mon % 12;
  }

  // Moving whole carries between seconds, minutes, hours and days changes
  // nothing, whatever the signs.
  lemma CarriesCancel(v: TmValue, a: int, b: int, c: int)
    requires FitsInt32(v.sec - 60 * a) && FitsInt32(v.min + a - 60 * b)
    requires FitsInt32(v.hour + b - 24 * c) && FitsInt32(v.mday + c)
    ensures FoldedSeconds(v) == FoldedSeconds(
              v.(sec := v.sec - 60 * a, min := v.min + a - 60 * b, hour := v.hour + b - 24 * c, mday := v.mday + c))
  {
    hide FoldedYear, FoldedMonth, FoldedDays, FoldedSeconds, YearStart, MonthStart;
    FoldedSecondsExact(v);
    FoldedSecondsExact(
      v.(sec := v.sec - 60 * a, min := v.min + a - 60 * b, hour := v.hour + b - 24 * c, mday := v.mday + c));
  }

  // ---- the standard's closed form ----

  // POSIX.1-2017 Base Definitions section 4.16, Seconds Since the Epoch, with
  // C's integer division.
  function PosixSeconds(v: TmValue): int {
    v.sec + v.min * 60 + v.hour * 3600 + v.yday * 86400
    + (v.year - 70) * 31536000 + Quot(v.year - 69, 4) * 86400
    - Quot(v.year - 1, 100) * 86400 + Quot(v.year + 299, 400) * 86400
  }

  // The leap-day terms of the standard's formula count the days between the
  // epoch and the year, from 1970 on.
  lemma PosixYearStart(year: int)
    requires year >= 70
    ensures YearStart(year + 1900)
            == (year - 70) * 365 + Quot(year - 69, 4) - Quot(year - 1, 100) + Quot(year + 299, 400)
  {
    YearStartClosed(year + 1900);
    assert (year + 1899) / 4 == (year - 69) / 4 + 492;
    assert (year + 1899) / 100 == (year - 1) / 100 + 19;
    assert (year + 1899) / 400 == (year + 299) / 400 + 4;
  }

  // For every year from 1970 on, gmtime_r's fields satisfy the standard's
  // expression with value t.
  lemma PosixFormulaHolds(t: int64)
    requires 0 <= t && YearFits(t)
    ensures PosixSeconds(Broken(t)) == t
  {
    hide CivilFromDays, Broken, Quot, MonthStart, YearStart;
    var v := Broken(t);
    var date := CivilFromDays(t / SECONDS_PER_DAY);
    BrokenFields(t);
    assert date.year >= 1970 by {
      YearBeganBy(date, 1970);
      YearStartClosed(1970);
    }
    PosixYearStart(v.year);
    TimeOfDayJoin(t % SECONDS_PER_DAY);
  }
}
