// What strftime's expansions promise each other: composite conversions, "%s"
// read back, the sortable timestamp, and asctime's fixed columns.
module StrftimeLaws {
  import opened CInt
  import opened Decimal
  import opened Gregorian
  import opened CivilDays
  import opened CalendarTime
  import opened Strftime

  // ---- expanding a format piece by piece ----

  lemma ExpandPercent(c: char, rest: string, v: TmValue)
    requires c != 'E' && c != 'O'
    ensures Expand(['%', c] + rest, v) == Conversion(c, v) + Expand(rest, v)
  {
    hide Conversion;
    var f := ['%', c] + rest;
    assert f[PieceLength(f)..] == rest;
  }

  lemma ExpandChar(c: char, rest: string, v: TmValue)
    requires c != '%'
    ensures Expand([c] + rest, v) == [c] + Expand(rest, v)
  {
    var f := [c] + rest;
    assert f[PieceLength(f)..] == rest;
  }

  lemma ExpandOne(c: char, v: TmValue)
    requires c != 'E' && c != 'O'
    ensures Expand(['%', c], v) == Conversion(c, v)
  {
    hide Conversion;
    assert ['%', c] + [] == ['%', c];
    ExpandPercent(c, [], v);
  }

  // The locale modifiers change nothing.
  lemma ModifiersAreIgnored(c: char, rest: string, v: TmValue)
    requires c != 'E' && c != 'O'
    ensures Expand(['%', 'E', c] + rest, v) == Expand(['%', c] + rest, v)
    ensures Expand(['%', 'O', c] + rest, v) == Expand(['%', c] + rest, v)
  {
    hide Conversion;
    ExpandPercent(c, rest, v);
    var e, o := ['%', 'E', c] + rest, ['%', 'O', c] + rest;
    assert e[PieceLength(e)..] == rest && o[PieceLength(o)..] == rest;
  }

  // Two-letter formats with one separator.
  lemma ExpandPair(a: char, sep: char, rest: string, v: TmValue)
    requires a != 'E' && a != 'O' && sep != '%'
    ensures Expand(['%', a, sep] + rest, v) == Conversion(a, v) + ([sep] + Expand(rest, v))
  {
    hide Conversion;
    assert ['%', a, sep] + rest == ['%', a] + ([sep] + rest);
    ExpandPercent(a, [sep] + rest, v);
    ExpandChar(sep, rest, v);
  }

  // The conversions used below, by their letters.
  lemma DateConversions(v: TmValue)
    ensures Conversion('Y', v) == NumText(CYear(v), 4, '0')
    ensures Conversion('C', v) == NumText(Quot(CYear(v), 100), 2, '0')
    ensures Conversion('y', v) == NumText(Rem(CYear(v), 100), 2, '0')
    ensures Conversion('m', v) == NumText(ToInt32(v.mon + 1), 2, '0')
    ensures Conversion('d', v) == NumText(v.mday, 2, '0')
  {
    hide NumText, ToInt32, CYear, Quot, Rem;
  }

  lemma TimeConversions(v: TmValue)
    ensures Conversion('H', v) == NumText(v.hour, 2, '0')
    ensures Conversion('M', v) == NumText(v.min, 2, '0')
    ensures Conversion('S', v) == NumText(v.sec, 2, '0')
    ensures Conversion('s', v) == NumText(FoldedSeconds(v), 1, '0')
  {
    hide NumText, FoldedSeconds;
  }

  lemma CompositeConversions(v: TmValue)
    ensures Conversion('F', v) == TextOf('F', v)
    ensures Conversion('T', v) == TextOf('T', v)
    ensures Conversion('R', v) == TextOf('R', v)
    ensures Conversion('D', v) == TextOf('D', v)
  {
    hide TextOf;
  }

  // ---- the format's own characters ----

  // Text without a '%' stands for itself, in front of anything.
  lemma {:induction false} LiteralText(f: string, g: string, v: TmValue)
    requires forall k :: 0 <= k < |f| ==> f[k] != '%'
    ensures Expand(f + g, v) == f + Expand(g, v)
    decreases f
  {
    hide Expand;
    if f == [] {
      assert f + g == g;
    } else {
      assert f + g == [f[0]] + (f[1..] + g);
      ExpandChar(f[0], f[1..] + g, v);
      LiteralText(f[1..], g, v);
    }
  }

  // A '%' with nothing after it is emitted, with or without a modifier, and
  // after any text; "%%" is one '%'.
  lemma TrailingPercent(f: string, v: TmValue)
    requires forall k :: 0 <= k < |f| ==> f[k] != '%'
    ensures Expand("%", v) == Expand("%E", v) == Expand("%O", v) == Expand("%%", v) == "%"
    ensures Expand(f, v) == f
    ensures Expand(f + "%", v) == f + "%"
    ensures Expand(f + "%E", v) == f + "%"
    ensures Expand(f + "%O", v) == f + "%"
  {
    LonePercent(v);
    hide Expand;
    LiteralText(f, "%", v);
    LiteralText(f, "%E", v);
    LiteralText(f, "%O", v);
    LiteralText(f, "", v);
    assert f + "" == f;
  }

  lemma LonePercent(v: TmValue)
    ensures Expand("", v) == ""
    ensures Expand("%", v) == Expand("%E", v) == Expand("%O", v) == Expand("%%", v) == "%"
  {
    hide NumText, FoldedSeconds, Snprintf, ToInt32, CYear, Quot, Rem, Hour12, ZeroPadded, SpacePadded;
    assert "%%" == ['%', '%'];
    ExpandOne('%', v);
    assert PieceText("%", v) == PieceText("%E", v) == PieceText("%O", v) == "%";
  }

  // The letters strftime knows.
  const KNOWN: string := "aAbhBCdeHIjmMnpStuwyYZzDFRTcs%"

  // Any other conversion is copied through, and the text around it is not
  // disturbed; only one modifier is skipped.
  lemma UnknownIsVerbatim(c: char, rest: string, v: TmValue)
    ensures c !in KNOWN && c != 'E' && c != 'O' ==> Expand(['%', c] + rest, v) == ['%', c] + Expand(rest, v)
    ensures c !in KNOWN && c != 'E' && c != 'O' ==> Expand(['%', c], v) == ['%', c]
    ensures Expand(['%', 'E', 'E'] + rest, v) == ['%', 'E'] + Expand(rest, v)
    ensures Expand(['%', 'O', 'O'] + rest, v) == ['%', 'O'] + Expand(rest, v)
  {
    if c !in KNOWN && c != 'E' && c != 'O' {
      UnknownLetter(c, v);
      ExpandPercent(c, rest, v);
      ExpandOne(c, v);
    }
    hide Expand;
    DoubleModifier('E', rest, v);
    DoubleModifier('O', rest, v);
  }

  lemma UnknownLetter(c: char, v: TmValue)
    requires c !in KNOWN
    ensures Conversion(c, v) == ['%', c]
  {
    assert KNOWN == ['a', 'A', 'b', 'h', 'B', 'C', 'd', 'e', 'H', 'I', 'j', 'm', 'M', 'n', 'p',
                     'S', 't', 'u', 'w', 'y', 'Y', 'Z', 'z', 'D', 'F', 'R', 'T', 'c', 's', '%'];
    hide NumText, FoldedSeconds, Snprintf, ToInt32, CYear, Quot, Rem, Hour12, ZeroPadded, SpacePadded;
  }

  lemma DoubleModifier(c: char, rest: string, v: TmValue)
    requires c == 'E' || c == 'O'
    ensures Expand(['%', c, c] + rest, v) == ['%', c] + Expand(rest, v)
  {
    UnknownLetter(c, v);
    var f := ['%', c, c] + rest;
    assert f[PieceLength(f)..] == rest;
  }

  // ---- composite conversions ----

  // "%C%y" is "%Y" for every non-negative year, however wide, and for negative
  // years exactly in the whole centuries.
  lemma CenturyAndYear(v: TmValue)
    ensures Expand("%C%y", v) == Expand("%Y", v) <==> CYear(v) >= 0 || Rem(CYear(v), 100) == 0
  {
    hide Conversion, Expand, NumText, CYear;
    DateConversions(v);
    assert "%C%y" == ['%', 'C'] + ['%', 'y'] && "%Y" == ['%', 'Y'];
    ExpandPercent('C', ['%', 'y'], v);
    ExpandOne('y', v);
    ExpandOne('Y', v);
    var y: int := CYear(v);
    if y >= 0 {
      CenturyThenYear(y);
    } else {
      NegativeCenturyThenYear(-y);
    }
  }

  lemma {:induction false} DigitsAtMost(u: nat, k: nat)
    requires k > 0 && u < Pow10(k)
    ensures |Digits(u)| <= k
    decreases k
  {
    if u >= 10 {
      DigitsAtMost(u / 10, k - 1);
    }
  }

  // The year field of "%F" is at most eleven characters, so nothing is cut off.
  lemma YearWidth(y: int32)
    ensures 4 <= |ZeroPadded(y, 4)| <= 11
    ensures |Digits(Magnitude(y))| >= 4 <==> y <= -1000 || y >= 1000
  {
    assert Pow10(5) == 100000;
    assert Pow10(10) == 10000000000;
    DigitsAtMost(Magnitude(y), 10);
    ZeroPaddedRoundTrip(y, 4);
    ThreeOrFourDigits(Magnitude(y));
  }

  lemma TwoWide(x: nat)
    requires x < 100
    ensures |NumText(x, 2, '0')| == 2 && ZeroPadded(x, 2) == NumText(x, 2, '0')
  {
    TwoDigits(x);
    ZeroPaddedIsNumText(x, 2);
  }

  // The two-digit fields of a canonical struct.
  lemma CanonicalFields(v: TmValue)
    requires Canonical(v)
    ensures 0 <= v.sec < 100 && 0 <= v.min < 100 && 0 <= v.hour < 100 && 0 <= v.mday < 100
    ensures 0 <= v.mon < 12 && ToInt32(v.mon + 1) == v.mon + 1
  {
  }

  // "%F" is "%Y-%m-%d" except in the years -999 to -1, where snprintf counts
  // the sign into the four places and put_num does not.
  lemma FullDate(v: TmValue)
    requires Canonical(v)
    ensures Expand("%F", v) == Expand("%Y-%m-%d", v) <==> CYear(v) >= 0 || CYear(v) <= -1000
  {
    hide Conversion, Expand, Canonical, CYear, ToInt32, ZeroPadded, NumText, Digits;
    DateConversions(v);
    CompositeConversions(v);
    CanonicalFields(v);
    var y, m, d := CYear(v), v.mon + 1, v.mday;
    YearWidth(y);
    SignInWidth(y, 4);
    TwoWide(m);
    TwoWide(d);
    assert "%F" == ['%', 'F'] && "%Y-%m-%d" == ['%', 'Y', '-'] + (['%', 'm', '-'] + ['%', 'd']);
    ExpandOne('F', v);
    ExpandPair('Y', '-', ['%', 'm', '-'] + ['%', 'd'], v);
    ExpandPair('m', '-', ['%', 'd'], v);
    ExpandOne('d', v);
    assert Conversion('F', v) == ZeroPadded(y, 4) + "-" + NumText(m, 2, '0') + "-" + NumText(d, 2, '0');
    assert Expand("%Y-%m-%d", v) == NumText(y, 4, '0') + "-" + NumText(m, 2, '0') + "-" + NumText(d, 2, '0');
  }

  lemma FullTime(v: TmValue)
    requires Canonical(v)
    ensures Expand("%T", v) == Expand("%H:%M:%S", v)
    ensures Expand("%R", v) == Expand("%H:%M", v)
  {
    hide Conversion, Expand, Canonical, CYear, ToInt32, ZeroPadded, NumText;
    TimeConversions(v);
    CompositeConversions(v);
    CanonicalFields(v);
    TwoWide(v.hour);
    TwoWide(v.min);
    TwoWide(v.sec);
    assert "%T" == ['%', 'T'] && "%H:%M:%S" == ['%', 'H', ':'] + (['%', 'M', ':'] + ['%', 'S']);
    ExpandOne('T', v);
    ExpandPair('H', ':', ['%', 'M', ':'] + ['%', 'S'], v);
    ExpandPair('M', ':', ['%', 'S'], v);
    ExpandOne('S', v);
    assert "%R" == ['%', 'R'] && "%H:%M" == ['%', 'H', ':'] + ['%', 'M'];
    ExpandOne('R', v);
    ExpandPair('H', ':', ['%', 'M'], v);
    ExpandOne('M', v);
  }

  // "%D" is "%m/%d/%y" except when the year of the century is -9 to -1.
  lemma AmericanDate(v: TmValue)
    requires Canonical(v)
    ensures Expand("%D", v) == Expand("%m/%d/%y", v) <==> !(-10 < Rem(CYear(v), 100) < 0)
  {
    hide Conversion, Expand, Canonical, CYear, ToInt32, ZeroPadded, NumText, Digits;
    DateConversions(v);
    CompositeConversions(v);
    CanonicalFields(v);
    var m, d, y := v.mon + 1, v.mday, Rem(CYear(v), 100);
    YearOfCentury(y);
    TwoWide(m);
    TwoWide(d);
    assert "%D" == ['%', 'D'] && "%m/%d/%y" == ['%', 'm', '/'] + (['%', 'd', '/'] + ['%', 'y']);
    ExpandOne('D', v);
    ExpandPair('m', '/', ['%', 'd', '/'] + ['%', 'y'], v);
    ExpandPair('d', '/', ['%', 'y'], v);
    ExpandOne('y', v);
    assert Conversion('D', v) == NumText(m, 2, '0') + "/" + NumText(d, 2, '0') + "/" + ZeroPadded(y, 2);
    assert Expand("%m/%d/%y", v) == NumText(m, 2, '0') + "/" + NumText(d, 2, '0') + "/" + NumText(y, 2, '0');
  }

  lemma YearOfCentury(y: int)
    requires -100 < y < 100
    ensures |ZeroPadded(y, 2)| <= 3
    ensures ZeroPadded(y, 2) == NumText(y, 2, '0') <==> !(-10 < y < 0)
    ensures |ZeroPadded(y, 2)| == |NumText(y, 2, '0')| <==> !(-10 < y < 0)
  {
    hide Digits, ZeroPadded, NumText;
    DigitsLength(Magnitude(y));
    ZeroPaddedRoundTrip(y, 2);
    SignInWidth(y, 2);
  }

  // ---- "%s" ----

  // The text of "%s" denotes the instant exactly when its year fits tm_year.
  lemma SecondsReadBack(t: int64)
    ensures Denotes(Expand("%s", Broken(t)), t) <==> YearFits(t)
  {
    hide Conversion, Expand, FoldedSeconds, Broken, YearFits, NumText, Denotes;
    TimeConversions(Broken(t));
    var v := Broken(t);
    assert "%s" == ['%', 's'];
    ExpandOne('s', v);
    NumTextRoundTrip(FoldedSeconds(v), 1);
    TimegmUndoesGmtime(t);
    DenotesOne(NumText(FoldedSeconds(v), 1, '0'), FoldedSeconds(v), t);
  }

  lemma DenotesOne(s: string, a: int, b: int)
    requires Denotes(s, a)
    ensures Denotes(s, b) <==> a == b
  {
  }

  // ---- single fields ----

  // The numbers of a canonical struct, as their texts read back: two digits
  // each, three for the day of the year, one for the weekdays, a blank in front
  // of a one-digit %e.
  lemma DayFields(v: TmValue)
    requires Canonical(v)
    ensures Denotes(Conversion('d', v), v.mday) && |Conversion('d', v)| == 2
    ensures BlankDenotes(Conversion('e', v), v.mday) && |Conversion('e', v)| == 2
    ensures Denotes(Conversion('m', v), v.mon + 1) && |Conversion('m', v)| == 2
    ensures Denotes(Conversion('j', v), v.yday + 1) && |Conversion('j', v)| == 3
    ensures Denotes(Conversion('w', v), v.wday) && |Conversion('w', v)| == 1
    ensures Denotes(Conversion('u', v), if v.wday == 0 then 7 else v.wday) && |Conversion('u', v)| == 1
  {
    DayNumbers(v);
    CanonicalDays(v);
    hide Conversion, NumText, Denotes, BlankDenotes, Canonical, SpacePadded, Digits;
    Reads(v.mday, 2);
    Reads(v.mon + 1, 2);
    Reads(v.yday + 1, 3);
    Reads(v.wday, 1);
    Reads(7, 1);
    BlankIsSpacePadded(v.mday);
    SpacePaddedRoundTrip(v.mday, 2);
  }

  lemma CanonicalDays(v: TmValue)
    requires Canonical(v)
    ensures 1 <= v.mday <= 31 && 0 <= v.mon < 12 && 0 <= v.yday < 366 && 0 <= v.wday < 7
  {
    hide MonthStart, YearStart;
    DayOfYearRange(Date(v.year + 1900, v.mon + 1, v.mday));
  }

  lemma DayNumbers(v: TmValue)
    requires Canonical(v)
    ensures Conversion('d', v) == NumText(v.mday, 2, '0')
    ensures Conversion('e', v) == NumText(v.mday, 2, ' ')
    ensures Conversion('m', v) == NumText(v.mon + 1, 2, '0')
    ensures Conversion('j', v) == NumText(v.yday + 1, 3, '0')
    ensures Conversion('w', v) == NumText(v.wday, 1, '0')
    ensures Conversion('u', v) == NumText(if v.wday == 0 then 7 else v.wday, 1, '0')
  {
    CanonicalDays(v);
    hide Canonical, NumText, FoldedSeconds, TextOf, CYear, Quot, Rem, Hour12;
  }

  // A zero-padded number that fits its width.
  lemma Reads(x: nat, width: nat)
    requires (width == 1 && x < 10) || (width == 2 && x < 100) || (width == 3 && x < 1000)
    ensures Denotes(NumText(x, width, '0'), x) && |NumText(x, width, '0')| == width
    ensures |NumText(x, width, ' ')| == width
  {
    NumTextRoundTrip(x, width);
    hide Denotes, NumText;
    NumTextLength(x, width, '0');
    NumTextLength(x, width, ' ');
    DigitsLength(x);
    ThreeOrFourDigits(x);
  }

  lemma BlankIsSpacePadded(x: nat)
    ensures NumText(x, 2, ' ') == SpacePadded(x, 2)
  {
    hide Digits;
    assert "" + Digits(x) == Digits(x);
  }

  lemma TimeFields(v: TmValue)
    requires Canonical(v)
    ensures Denotes(Conversion('H', v), v.hour) && |Conversion('H', v)| == 2
    ensures Denotes(Conversion('M', v), v.min) && |Conversion('M', v)| == 2
    ensures Denotes(Conversion('S', v), v.sec) && |Conversion('S', v)| == 2
  {
    CanonicalFields(v);
    hide Conversion, NumText, Denotes, Canonical;
    TimeConversions(v);
    Reads(v.hour, 2);
    Reads(v.min, 2);
    Reads(v.sec, 2);
  }

  // The twelve-hour clock: %I reads 1 to 12 in two digits, and with %p it
  // determines the hour.
  lemma TwelveHourClock(v: TmValue)
    requires Canonical(v)
    ensures var h := if v.hour % 12 == 0 then 12 else v.hour % 12;
            && Denotes(Conversion('I', v), h) && |Conversion('I', v)| == 2
            && 1 <= h <= 12
            && Conversion('p', v) == (if v.hour < 12 then "AM" else "PM")
            && v.hour == h % 12 + (if Conversion('p', v) == "PM" then 12 else 0)
    ensures 1 <= Hour12(v) <= 12
    ensures v.hour == Hour12(v) % 12 + (if Conversion('p', v) == "PM" then 12 else 0)
  {
    HourTexts(v);
    HourOnTheDial(v);
    hide Conversion, NumText, Denotes, Canonical, Hour12;
    Reads(Hour12(v), 2);
    DifferentHalves();
  }

  lemma DifferentHalves()
    ensures "AM" != "PM"
  {
    assert "AM"[0] != "PM"[0];
  }

  lemma HourOnTheDial(v: TmValue)
    requires 0 <= v.hour < 24
    ensures 1 <= Hour12(v) <= 12
    ensures Hour12(v) == (if v.hour % 12 == 0 then 12 else v.hour % 12)
    ensures v.hour == Hour12(v) % 12 + (if v.hour < 12 then 0 else 12)
  {
    assert v.hour / 12 == if v.hour < 12 then 0 else 1;
  }

  lemma HourTexts(v: TmValue)
    requires Canonical(v)
    ensures Conversion('I', v) == NumText(Hour12(v), 2, '0')
    ensures Conversion('p', v) == (if v.hour < 12 then "AM" else "PM")
    ensures 0 <= v.hour < 24
  {
    hide NumText, FoldedSeconds, Snprintf, ToInt32, CYear, Quot, Rem, Hour12, ZeroPadded, SpacePadded;
  }

  // The year's numbers, for any struct at all: C's quotient and remainder keep
  // the sign.
  lemma YearFields(v: TmValue)
    ensures Denotes(Conversion('Y', v), CYear(v)) && |Conversion('Y', v)| >= 4
    ensures Denotes(Conversion('C', v), Quot(CYear(v), 100)) && |Conversion('C', v)| >= 2
    ensures Denotes(Conversion('y', v), Rem(CYear(v), 100)) && |Conversion('y', v)| >= 2
    ensures FitsInt32(v.year + 1900) ==> CYear(v) == v.year + 1900
  {
    DateConversions(v);
    hide Conversion, NumText, Denotes, Quot, Rem, ToInt32;
    NumTextRoundTrip(CYear(v), 4);
    NumTextRoundTrip(Quot(CYear(v), 100), 2);
    NumTextRoundTrip(Rem(CYear(v), 100), 2);
    NumTextLength(CYear(v), 4, '0');
    NumTextLength(Quot(CYear(v), 100), 2, '0');
    NumTextLength(Rem(CYear(v), 100), 2, '0');
  }

  // Out of range fields are printed as they are: every zero-padded number of
  // any struct reads back, whatever its sign.
  lemma NumbersReadBack(c: char, v: TmValue)
    requires NumberOf(c, v).Number? && c != 'e'
    ensures Denotes(Conversion(c, v), NumberOf(c, v).value)
    ensures c == 'd' ==> NumberOf(c, v).value == v.mday
    ensures c == 'H' ==> NumberOf(c, v).value == v.hour
    ensures c == 'M' ==> NumberOf(c, v).value == v.min
    ensures c == 'S' ==> NumberOf(c, v).value == v.sec
    ensures Canonical(v) && c == 'm' ==> NumberOf(c, v).value == v.mon + 1
    ensures Canonical(v) && c == 'j' ==> NumberOf(c, v).value == v.yday + 1
    ensures Canonical(v) && c == 'w' ==> NumberOf(c, v).value == v.wday
  {
    hide FoldedSeconds, NumText, Denotes, CYear, Quot, Rem, MonthStart, YearStart;
    var n := NumberOf(c, v);
    NumTextRoundTrip(n.value, n.width);
    if Canonical(v) {
      DayOfYearRange(Date(v.year + 1900, v.mon + 1, v.mday));
    }
  }

  // The conversions that ignore the struct.
  lemma FixedTexts(v: TmValue)
    ensures Expand("%n", v) == "\n" && Expand("%t", v) == "\t"
    ensures Expand("%Z", v) == "UTC" && Expand("%z", v) == "+0000"
    ensures Expand("%%", v) == "%"
  {
    hide Expand, NumText, FoldedSeconds, Snprintf, ToInt32, CYear, Quot, Rem, Hour12, ZeroPadded, SpacePadded;
    assert "%n" == ['%', 'n'] && "%t" == ['%', 't'] && "%Z" == ['%', 'Z'] && "%z" == ['%', 'z'] && "%%" == ['%', '%'];
    ExpandOne('n', v);
    ExpandOne('t', v);
    ExpandOne('Z', v);
    ExpandOne('z', v);
    ExpandOne('%', v);
  }

  // ---- names ----

  // Every name by its number; a weekday or month out of range is Sunday or
  // January.
  lemma NamesByValue(v: TmValue)
    ensures Expand("%A", v) ==
            (match v.wday
             case 1 => "Monday" case 2 => "Tuesday" case 3 => "Wednesday"
             case 4 => "Thursday" case 5 => "Friday" case 6 => "Saturday" case _ => "Sunday")
    ensures Expand("%B", v) ==
            (match v.mon
             case 1 => "February" case 2 => "March" case 3 => "April" case 4 => "May"
             case 5 => "June" case 6 => "July" case 7 => "August" case 8 => "September"
             case 9 => "October" case 10 => "November" case 11 => "December" case _ => "January")
  {
    hide Expand, NumText, FoldedSeconds, Snprintf, ToInt32, CYear, Quot, Rem, Hour12, ZeroPadded, SpacePadded;
    assert "%A" == ['%', 'A'] && "%B" == ['%', 'B'];
    ExpandOne('A', v);
    ExpandOne('B', v);
  }

  // Short names are the first three letters of the long ones, %h is %b, and %u
  // is %w with Sunday moved to the end.
  lemma NamesAgree(v: TmValue)
    ensures |Conversion('A', v)| >= 3 && Conversion('a', v) == Conversion('A', v)[..3]
    ensures |Conversion('B', v)| >= 3 && Conversion('b', v) == Conversion('h', v) == Conversion('B', v)[..3]
    ensures NumberOf('u', v).value % 7 == NumberOf('w', v).value
  {
    hide NumText, FoldedSeconds, Snprintf, ToInt32, CYear, Quot, Rem, Hour12, ZeroPadded, SpacePadded;
    DayNames(WdayIndex(v));
    MonthNames(MonIndex(v));
  }

  lemma DayNames(i: int)
    requires 0 <= i < 7
    ensures |WDAY_LONG[i]| >= 3 && |WDAY_SHORT[i]| == 3 && WDAY_SHORT[i] == WDAY_LONG[i][..3]
  {
  }

  lemma MonthNames(i: int)
    requires 0 <= i < 12
    ensures |MON_LONG[i]| >= 3 && |MON_SHORT[i]| == 3 && MON_SHORT[i] == MON_LONG[i][..3]
  {
  }

  // ---- %c ----

  // "%c" is the date, the time and the plain year; from year 1000 on that is
  // "%a %b %e %H:%M:%S %Y".
  lemma DateAndTime(v: TmValue)
    requires Canonical(v)
    ensures var year := SpacePadded(CYear(v), 0);
            && Expand("%c", v) == Expand("%a %b %e %H:%M:%S ", v) + year
            && Denotes(year, CYear(v))
            && (CYear(v) >= 1000 ==> Expand("%c", v) == Expand("%a %b %e %H:%M:%S %Y", v))
  {
    hide Expand, Conversion, Canonical, NumText, SpacePadded, ZeroPadded, Denotes, CYear, ToInt32, Digits;
    var year := SpacePadded(CYear(v), 0);
    var stem := LineStem(v);
    PlainYear(CYear(v));
    LineStemExpands(v, "");
    LineStemExpands(v, "%Y");
    ExpandNothing(v);
    assert "%Y" == ['%', 'Y'] && "%a %b %e %H:%M:%S " + "" == "%a %b %e %H:%M:%S ";
    assert "%a %b %e %H:%M:%S " + "%Y" == "%a %b %e %H:%M:%S %Y";
    ExpandOne('Y', v);
    DateConversions(v);
    assert "%c" == ['%', 'c'];
    ExpandOne('c', v);
    LineConversion(v);
    LineStemWidth(v);
    assert Expand("%c", v) == stem + year;
  }

  lemma ExpandNothing(v: TmValue)
    ensures Expand("", v) == ""
  {
  }

  // Weekday, month, day and time, as "%c" and asctime both begin.
  function LineStem(v: TmValue): string {
    WDAY_SHORT[WdayIndex(v)] + " " + MON_SHORT[MonIndex(v)] + " " + SpacePadded(v.mday, 2) + " " + TimeText(v) + " "
  }

  lemma LineConversion(v: TmValue)
    ensures Conversion('c', v) == Snprintf(40, LineStem(v) + SpacePadded(CYear(v), 0))
  {
    hide SpacePadded, ZeroPadded, CYear, Snprintf;
    assert TextOf('c', v) == Snprintf(40, LineStem(v) + SpacePadded(CYear(v), 0));
  }

  lemma LineStemWidth(v: TmValue)
    requires Canonical(v)
    ensures |LineStem(v)| == 20
    ensures |TimeText(v)| == 8
  {
    CanonicalFields(v);
    hide Canonical, SpacePadded, ZeroPadded, NumText;
    TwoWide(v.hour);
    TwoWide(v.min);
    TwoWide(v.sec);
    SpacePaddedWidth(v.mday);
    DayNames(WdayIndex(v));
    MonthNames(MonIndex(v));
  }

  lemma PlainYear(y: int32)
    ensures Denotes(SpacePadded(y, 0), y) && |SpacePadded(y, 0)| <= 11
    ensures y >= 1000 ==> SpacePadded(y, 0) == NumText(y, 4, '0')
  {
    PlainRoundTrip(y);
    hide Denotes;
    assert SpacePadded(y, 0) == Sign(y) + Digits(Magnitude(y));
    assert Pow10(5) == 100000;
    assert Pow10(10) == 10000000000;
    DigitsAtMost(Magnitude(y), 10);
    ThreeOrFourDigits(Magnitude(y));
  }

  // The stem is what its conversions expand to, in front of anything.
  lemma LineStemExpands(v: TmValue, rest: string)
    requires Canonical(v)
    ensures Expand("%a %b %e %H:%M:%S " + rest, v) == LineStem(v) + Expand(rest, v)
  {
    hide Expand, Conversion, Canonical, NumText, SpacePadded, ZeroPadded;
    var f3 := "%H:%M:%S " + rest;
    var f2 := ['%', 'e', ' '] + f3;
    var f1 := ['%', 'b', ' '] + f2;
    assert "%a %b %e %H:%M:%S " + rest == ['%', 'a', ' '] + f1;
    ExpandPair('a', ' ', f1, v);
    ExpandPair('b', ' ', f2, v);
    ExpandPair('e', ' ', f3, v);
    ClockExpands(v, rest);
    StemConversions(v);
    var a, b, e := Conversion('a', v), Conversion('b', v), Conversion('e', v);
    var r := Expand(rest, v);
    assert a + ([' '] + (b + ([' '] + (e + ([' '] + (TimeText(v) + ([' '] + r)))))))
           == a + " " + b + " " + e + " " + TimeText(v) + " " + r;
  }

  lemma StemConversions(v: TmValue)
    requires Canonical(v)
    ensures Conversion('a', v) == WDAY_SHORT[WdayIndex(v)]
    ensures Conversion('b', v) == MON_SHORT[MonIndex(v)]
    ensures Conversion('e', v) == SpacePadded(v.mday, 2)
  {
    CanonicalDays(v);
    BlankIsSpacePadded(v.mday);
    hide Canonical, NumText, SpacePadded;
  }

  lemma ClockExpands(v: TmValue, rest: string)
    requires Canonical(v)
    ensures Expand("%H:%M:%S " + rest, v) == TimeText(v) + ([' '] + Expand(rest, v))
  {
    hide Expand, Conversion, Canonical, NumText, ZeroPadded, TimeText;
    var g := ['%', 'S', ' '] + rest;
    var f := ['%', 'M', ':'] + g;
    assert "%H:%M:%S " + rest == ['%', 'H', ':'] + f;
    ExpandPair('H', ':', f, v);
    ExpandPair('M', ':', g, v);
    ExpandPair('S', ' ', rest, v);
    ClockText(v);
    JoinClock(Conversion('H', v), Conversion('M', v), Conversion('S', v), [' '] + Expand(rest, v));
  }

  lemma JoinClock(h: string, m: string, s: string, rest: string)
    ensures h + ([':'] + (m + ([':'] + (s + rest)))) == h + ":" + m + ":" + s + rest
  {
  }

  lemma ClockText(v: TmValue)
    requires Canonical(v)
    ensures TimeText(v) == Conversion('H', v) + ":" + Conversion('M', v) + ":" + Conversion('S', v)
  {
    CanonicalFields(v);
    hide Conversion, Canonical, NumText, ZeroPadded;
    TimeConversions(v);
    TwoWide(v.hour);
    TwoWide(v.min);
    TwoWide(v.sec);
  }

  // ---- the local buffers ----

  // For any struct, however far out of range, a composite is its fields joined
  // and cut to what its local buffer holds.
  predicate CutTo(text: string, limit: nat, full: string) {
    text <= full && |text| == (if |full| <= limit then |full| else limit)
  }

  lemma CompositesFitTheirBuffers(v: TmValue)
    ensures var hm := ZeroPadded(v.hour, 2) + ":" + ZeroPadded(v.min, 2);
            && CutTo(Conversion('R', v), 7, hm)
            && CutTo(Conversion('T', v), 11, hm + ":" + ZeroPadded(v.sec, 2))
    ensures var m, d, y := ToInt32(v.mon + 1), v.mday, CYear(v);
            && CutTo(Conversion('D', v), 15, ZeroPadded(m, 2) + "/" + ZeroPadded(d, 2) + "/" + ZeroPadded(Rem(y, 100), 2))
            && CutTo(Conversion('F', v), 23, ZeroPadded(y, 4) + "-" + ZeroPadded(m, 2) + "-" + ZeroPadded(d, 2))
    ensures |Conversion('c', v)| <= 39
  {
    CompositeConversions(v);
    LineConversion(v);
    hide Conversion, ZeroPadded, SpacePadded, CYear, ToInt32, Rem;
  }

  // ---- the sortable timestamp ----

  const SORTABLE: string := "%Y-%m-%d %H:%M:%S"

  // Fixed-width fields with their separators.
  function Stamp(y: nat, mo: nat, d: nat, h: nat, mi: nat, s: nat): string {
    NumText(y, 4, '0') + ("-" + (NumText(mo, 2, '0') + ("-" + (NumText(d, 2, '0') + (" " + Clock(h, mi, s))))))
  }

  function Clock(h: nat, mi: nat, s: nat): string {
    NumText(h, 2, '0') + (":" + (NumText(mi, 2, '0') + (":" + NumText(s, 2, '0'))))
  }

  lemma ExpandClock(v: TmValue)
    requires Canonical(v)
    ensures Expand("%H:%M:%S", v) == Clock(v.hour, v.min, v.sec)
  {
    hide Conversion, Expand, Canonical, NumText;
    TimeConversions(v);
    CanonicalFields(v);
    assert "%H:%M:%S" == ['%', 'H', ':'] + (['%', 'M', ':'] + ['%', 'S']);
    ExpandPair('H', ':', ['%', 'M', ':'] + ['%', 'S'], v);
    ExpandPair('M', ':', ['%', 'S'], v);
    ExpandOne('S', v);
  }

  lemma ExpandStamp(v: TmValue)
    requires Canonical(v) && CYear(v) >= 0
    ensures Expand(SORTABLE, v) == Stamp(CYear(v), v.mon + 1, v.mday, v.hour, v.min, v.sec)
  {
    hide Conversion, Expand, Canonical, NumText, CYear, ToInt32, Clock;
    DateConversions(v);
    CanonicalFields(v);
    assert SORTABLE == ['%', 'Y', '-'] + "%m-%d %H:%M:%S";
    assert "%m-%d %H:%M:%S" == ['%', 'm', '-'] + "%d %H:%M:%S";
    assert "%d %H:%M:%S" == ['%', 'd', ' '] + "%H:%M:%S";
    ExpandPair('Y', '-', "%m-%d %H:%M:%S", v);
    ExpandPair('m', '-', "%d %H:%M:%S", v);
    ExpandPair('d', ' ', "%H:%M:%S", v);
    ExpandClock(v);
  }

  // Comparing two texts that start with equally wide fields and the same
  // separator.
  lemma LexOfField(a: string, sep: string, rest: string, b: string, rest': string)
    requires |a| == |b|
    ensures LexLess(a + (sep + rest), b + (sep + rest')) <==> LexLess(a, b) || (a == b && LexLess(rest, rest'))
    ensures a + (sep + rest) == b + (sep + rest') <==> a == b && rest == rest'
  {
    LexOfConcat(a, sep + rest, b, sep + rest');
    LexOfConcat(sep, rest, sep, rest');
    LexIrreflexive(sep);
    var l, r := a + (sep + rest), b + (sep + rest');
    if l == r {
      assert a == l[..|a|] && b == r[..|a|];
      assert rest == l[|a| + |sep|..] && rest' == r[|a| + |sep|..];
    }
  }

  lemma LexOfTwoDigits(x: nat, sep: string, rest: string, y: nat, rest': string)
    requires x < 100 && y < 100
    ensures LexLess(NumText(x, 2, '0') + (sep + rest), NumText(y, 2, '0') + (sep + rest'))
            <==> x < y || (x == y && LexLess(rest, rest'))
    ensures NumText(x, 2, '0') + (sep + rest) == NumText(y, 2, '0') + (sep + rest') <==> x == y && rest == rest'
  {
    hide NumText, LexLess;
    TwoWide(x);
    TwoWide(y);
    TwoDigitsOrder(x, y);
    LexOfField(NumText(x, 2, '0'), sep, rest, NumText(y, 2, '0'), rest');
  }

  lemma ClockOrder(h: nat, mi: nat, s: nat, h': nat, mi': nat, s': nat)
    requires h < 100 && mi < 60 && s < 60 && h' < 100 && mi' < 60 && s' < 60
    ensures LexLess(Clock(h, mi, s), Clock(h', mi', s'))
            <==> h * 3600 + mi * 60 + s < h' * 3600 + mi' * 60 + s'
    ensures Clock(h, mi, s) == Clock(h', mi', s') <==> h == h' && mi == mi' && s == s'
  {
    hide NumText, LexLess;
    TwoDigitsOrder(s, s');
    LexOfTwoDigits(mi, ":", NumText(s, 2, '0'), mi', NumText(s', 2, '0'));
    LexOfTwoDigits(h, ":", NumText(mi, 2, '0') + (":" + NumText(s, 2, '0')),
                   h', NumText(mi', 2, '0') + (":" + NumText(s', 2, '0')));
  }

  lemma StampOrder(a: Date, h: nat, mi: nat, s: nat, b: Date, h': nat, mi': nat, s': nat)
    requires 0 <= a.year < 10000 && 0 <= a.month < 100 && 0 <= a.day < 100
    requires 0 <= b.year < 10000 && 0 <= b.month < 100 && 0 <= b.day < 100
    requires h < 100 && mi < 60 && s < 60 && h' < 100 && mi' < 60 && s' < 60
    ensures var l, r := Stamp(a.year, a.month, a.day, h, mi, s), Stamp(b.year, b.month, b.day, h', mi', s');
            && (LexLess(l, r) <==> DateLess(a, b) || (a == b && LexLess(Clock(h, mi, s), Clock(h', mi', s'))))
            && (l == r <==> a == b && Clock(h, mi, s) == Clock(h', mi', s'))
  {
    hide NumText, LexLess, Clock;
    var c, c' := Clock(h, mi, s), Clock(h', mi', s');
    var d, d' := NumText(a.day, 2, '0') + (" " + c), NumText(b.day, 2, '0') + (" " + c');
    var m, m' := NumText(a.month, 2, '0') + ("-" + d), NumText(b.month, 2, '0') + ("-" + d');
    LexOfTwoDigits(a.day, " ", c, b.day, c');
    LexOfTwoDigits(a.month, "-", d, b.month, d');
    FourDigits(a.year);
    FourDigits(b.year);
    FourDigitsOrder(a.year, b.year);
    LexOfField(NumText(a.year, 4, '0'), "-", m, NumText(b.year, 4, '0'), m');
  }

  // Instants whose year has at most four digits.
  predicate FourDigitYear(t: int64) {
    0 <= CivilYear(t) <= 9999
  }

  lemma StampOfInstant(t: int64)
    requires FourDigitYear(t)
    ensures var date := CivilFromDays(t / SECONDS_PER_DAY);
            var v := Broken(t);
            && 0 <= v.hour < 24 && 0 <= v.min < 60 && 0 <= v.sec < 60
            && ValidDate(date) && 0 <= date.year <= 9999
            && Expand(SORTABLE, v) == Stamp(date.year, date.month, date.day, v.hour, v.min, v.sec)
            && v.hour * 3600 + v.min * 60 + v.sec == t % SECONDS_PER_DAY
  {
    hide CivilFromDays, Broken, Expand, Stamp;
    BrokenFields(t);
    BrokenIsCanonical(t);
    TimeOfDayJoin(t % SECONDS_PER_DAY);
    ExpandStamp(Broken(t));
  }

  // In years 0 to 9999 the texts sort exactly as the instants, and so
  // determine them (section 5.1 of RFC 3339).
  lemma StampsSortAsInstants(t: int64, u: int64)
    requires FourDigitYear(t) && FourDigitYear(u)
    ensures LexLess(Expand(SORTABLE, Broken(t)), Expand(SORTABLE, Broken(u))) <==> t < u
    ensures Expand(SORTABLE, Broken(t)) == Expand(SORTABLE, Broken(u)) <==> t == u
  {
    hide CivilFromDays, Broken, Expand, Stamp, LexLess, Clock, FourDigitYear;
    var a, b := CivilFromDays(t / SECONDS_PER_DAY), CivilFromDays(u / SECONDS_PER_DAY);
    var v, w := Broken(t), Broken(u);
    StampOfInstant(t);
    StampOfInstant(u);
    StampOrder(a, v.hour, v.min, v.sec, b, w.hour, w.min, w.sec);
    ClockOrder(v.hour, v.min, v.sec, w.hour, w.min, w.sec);
    CivilFromDaysOrders(t / SECONDS_PER_DAY, u / SECONDS_PER_DAY);
    CivilFromDaysOrders(u / SECONDS_PER_DAY, t / SECONDS_PER_DAY);
  }

  // ---- asctime ----

  // The text before snprintf cuts it to the buffer.
  function AsctimeText(v: TmValue): string {
    WDAY_SHORT[WdayIndex(v)] + " " + MON_SHORT[MonIndex(v)] + " " + SpacePadded(v.mday, 2) + " "
    + TimeText(v) + " " + SpacePadded(CYear(v), 4) + "\n"
  }

  function Asctime(v: TmValue): string {
    Snprintf(26, AsctimeText(v))
  }

  // snprintf's effect on a buffer.
  method SnprintfInto(buf: array<char>, size: nat, text: string)
    requires 0 < size <= buf.Length
    modifies buf
    ensures var s := Snprintf(size, text);
            buf[..|s|] == s && buf[|s|] == '\0' && forall k :: |s| < k < buf.Length ==> buf[k] == old(buf[k])
  {
    var i := 0;
    while i < |text| && i + 1 < size
      invariant 0 <= i <= |text| && i < size
      invariant buf[..i] == text[..i]
      invariant forall k :: i <= k < buf.Length ==> buf[k] == old(buf[k])
    {
      buf[i] := text[i];
      i := i + 1;
    }
    buf[i] := '\0';
  }

  // asctime_r
  method AsctimeR(tm: Tm, buf: array<char>)
    requires buf.Length >= 26
    modifies buf
    ensures var s := Asctime(tm.Value());
            |s| <= 25 && buf[..|s|] == s && buf[|s|] == '\0'
    ensures forall k :: 26 <= k < buf.Length ==> buf[k] == old(buf[k])
  {
    hide AsctimeText;
    SnprintfInto(buf, 26, AsctimeText(tm.Value()));
  }

  lemma SpacePaddedWidth(x: int)
    ensures 0 <= x < 100 ==> |SpacePadded(x, 2)| == 2
    ensures |SpacePadded(x, 4)| >= 4
    ensures |SpacePadded(x, 4)| == 4 <==> -999 <= x <= 9999
  {
    DigitsLength(Magnitude(x));
    ThreeOrFourDigits(Magnitude(x));
  }

  lemma ThreeOrFourDigits(u: nat)
    ensures |Digits(u)| <= 3 <==> u < 1000
    ensures |Digits(u)| <= 4 <==> u < 10000
  {
    if u >= 100 {
      DigitsLength(u / 100);
      DigitsByHundred(u);
    } else {
      DigitsLength(u);
    }
  }

  // For a canonical struct the buffer always holds exactly 25 characters, and
  // the line is whole, ending in its newline, exactly for years -999 to 9999.
  lemma AsctimeColumns(v: TmValue)
    requires Canonical(v)
    ensures |Asctime(v)| == 25
    ensures Asctime(v)[24] == '\n' <==> -999 <= CYear(v) <= 9999
    ensures -999 <= CYear(v) <= 9999 <==> Asctime(v) == AsctimeText(v)
  {
    hide Canonical, CYear, ZeroPadded, NumText, SpacePadded;
    CanonicalFields(v);
    TwoWide(v.hour);
    TwoWide(v.min);
    TwoWide(v.sec);
    SpacePaddedWidth(v.mday);
    SpacePaddedWidth(CYear(v));
    assert |WDAY_SHORT[WdayIndex(v)]| == 3 && |MON_SHORT[MonIndex(v)]| == 3;
    var year := SpacePadded(CYear(v), 4);
    var text := AsctimeText(v);
    assert |text| == 21 + |year|;
    assert text[20..20 + |year|] == year;
    if |year| > 4 {
      assert text[24] == year[4];
      YearHasNoNewline(CYear(v));
    }
  }

  lemma YearHasNoNewline(x: int)
    ensures forall k :: 0 <= k < |SpacePadded(x, 4)| ==> SpacePadded(x, 4)[k] != '\n'
  {
    hide Digits;
    DigitsRoundTrip(Magnitude(x));
    var body := Sign(x) + Digits(Magnitude(x));
    assert forall k :: 0 <= k < |body| ==> body[k] != '\n';
  }

  // What the columns hold, for the years the format is meant for: weekday and
  // month by name, the day with a blank in front, the time as "%H:%M:%S", the
  // year in four places.
  lemma AsctimeHolds(v: TmValue)
    requires Canonical(v) && -999 <= CYear(v) <= 9999
    ensures |Asctime(v)| == 25
    ensures var line := Asctime(v);
            && line[0..3] == Conversion('a', v) && line[4..7] == Conversion('b', v)
            && line[8..10] == Conversion('e', v)
            && line[11..19] == Expand("%H:%M:%S", v)
            && BlankDenotes(line[20..24], CYear(v))
            && line[3] == line[7] == line[10] == line[19] == ' ' && line[24] == '\n'
  {
    AsctimeColumns(v);
    LineStemWidth(v);
    StemConversions(v);
    ExpandTime(v);
    hide Canonical, CYear, ZeroPadded, NumText, SpacePadded, Conversion, Expand, BlankDenotes, TimeText;
    SpacePaddedRoundTrip(CYear(v), 4);
    SpacePaddedWidth(CYear(v));
    var w, m, e := WDAY_SHORT[WdayIndex(v)], MON_SHORT[MonIndex(v)], SpacePadded(v.mday, 2);
    DayNames(WdayIndex(v));
    MonthNames(MonIndex(v));
    Columns(w, m, e, TimeText(v), SpacePadded(CYear(v), 4));
  }

  // The names stay in their columns whatever the other fields hold.
  lemma AsctimeNames(v: TmValue)
    ensures |Asctime(v)| >= 8 && Asctime(v)[..8] == Conversion('a', v) + " " + Conversion('b', v) + " "
  {
    hide CYear, ZeroPadded, NumText, SpacePadded, TimeText;
    DayNames(WdayIndex(v));
    MonthNames(MonIndex(v));
    var stem := WDAY_SHORT[WdayIndex(v)] + " " + MON_SHORT[MonIndex(v)] + " ";
    var rest := SpacePadded(v.mday, 2) + " " + TimeText(v) + " " + SpacePadded(CYear(v), 4) + "\n";
    assert AsctimeText(v) == stem + rest;
  }

  lemma ExpandTime(v: TmValue)
    requires Canonical(v)
    ensures Expand("%H:%M:%S", v) == TimeText(v)
    ensures |SpacePadded(v.mday, 2)| == 2
  {
    CanonicalFields(v);
    ExpandClock(v);
    hide Expand, Canonical, NumText, ZeroPadded, SpacePadded;
    TwoWide(v.hour);
    TwoWide(v.min);
    TwoWide(v.sec);
    SpacePaddedWidth(v.mday);
  }

  lemma Columns(w: string, m: string, e: string, t: string, y: string)
    requires |w| == |m| == 3 && |e| == 2 && |t| == 8 && |y| == 4
    ensures var line := w + " " + m + " " + e + " " + t + " " + y + "\n";
            && |line| == 25
            && line[0..3] == w && line[4..7] == m && line[8..10] == e && line[11..19] == t && line[20..24] == y
            && line[3] == line[7] == line[10] == line[19] == ' ' && line[24] == '\n'
  {
  }

  // The epoch, as gmtime_r breaks it down and asctime_r prints it.
  lemma EpochFields()
    ensures Broken(0) == TmValue(0, 0, 0, 1, 0, 70, 4, 0, 0, 0, "UTC")
  {
    hide CivilFromDays, Broken, DayNumber, MonthStart;
    BrokenFields(0);
    EpochDay();
    var date := CivilFromDays(0);
    DayNumberOrders(date, Date(1970, 1, 1));
    assert date == Date(1970, 1, 1);
  }

  lemma EpochDay()
    ensures ValidDate(Date(1970, 1, 1)) && DayNumber(Date(1970, 1, 1)) == 0 && MonthStart(1970, 1) == 0
  {
  }

  lemma EpochLine()
    ensures Asctime(Broken(0)) == "Thu Jan  1 00:00:00 1970\n"
  {
    EpochFields();
    EpochNumbers();
    hide Broken, ZeroPadded, SpacePadded;
    assert WDAY_SHORT[4] == "Thu" && MON_SHORT[0] == "Jan";
  }

  lemma EpochNumbers()
    ensures ZeroPadded(0, 2) == "00" && SpacePadded(1, 2) == " 1" && SpacePadded(1970, 4) == "1970"
  {
    assert Digits(0) == "0" && Digits(1) == "1";
    assert Digits(19) == "19";
    assert Digits(197) == "197";
    assert Digits(1970) == "1970";
  }
}
