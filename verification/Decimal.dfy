// Decimal text: what put_num and the integer conversions of snprintf write.
module Decimal {

  function DigitChar(d: int): char
    requires 0 <= d <= 9
  {
    (48 + d) as char
  }

  // The decimal digits of u, most significant first.
  function Digits(u: nat): string {
    if u < 10 then [DigitChar(u)] else Digits(u / 10) + [DigitChar(u % 10)]
  }

  function Repeat(c: char, n: nat): string {
    seq(n, _ => c)
  }

  function PadLeft(s: string, width: nat, pad: char): string {
    (if |s| < width then Repeat(pad, width - |s|) else []) + s
  }

  function Magnitude(v: int): nat {
    if v < 0 then -v else v
  }

  function Sign(v: int): string {
    if v < 0 then "-" else ""
  }

  // put_num: the sign goes in front of the padding and is not part of the width.
  function NumText(v: int, width: nat, pad: char): string {
    Sign(v) + PadLeft(Digits(Magnitude(v)), width, pad)
  }

  // "%0*d": the sign comes first and is part of the width.
  function ZeroPadded(v: int, width: nat): string {
    Sign(v) + PadLeft(Digits(Magnitude(v)), if width > |Sign(v)| then width - |Sign(v)| else 0, '0')
  }

  // "%*d": the sign stays with the digits and is part of the width.
  function SpacePadded(v: int, width: nat): string {
    PadLeft(Sign(v) + Digits(Magnitude(v)), width, ' ')
  }

  // ---- reading the text back ----

  predicate IsDigit(c: char) {
    48 <= c as int <= 57
  }

  // The number a run of digits denotes.
  function DigitsValue(s: string): nat
    requires forall k :: 0 <= k < |s| ==> IsDigit(s[k])
  {
    if s == [] then 0 else assert IsDigit(s[|s| - 1]); 10 * DigitsValue(s[..|s| - 1]) + (s[|s| - 1] as int - 48)
  }

  // The number a decimal text with an optional leading '-' denotes.
  predicate Denotes(s: string, v: int) {
    if s != [] && s[0] == '-' then
      && |s| > 1 && (forall k :: 1 <= k < |s| ==> IsDigit(s[k]))
      && v + DigitsValue(s[1..]) == 0
    else
      && |s| > 0 && (forall k :: 0 <= k < |s| ==> IsDigit(s[k]))
      && v == DigitsValue(s)
  }

  lemma {:induction false} DigitsRoundTrip(u: nat)
    ensures |Digits(u)| > 0
    ensures forall k :: 0 <= k < |Digits(u)| ==> IsDigit(Digits(u)[k])
    ensures DigitsValue(Digits(u)) == u
  {
    if u < 10 {
      assert Digits(u)[..0] == [];
    } else {
      DigitsRoundTrip(u / 10);
      assert Digits(u)[..|Digits(u)| - 1] == Digits(u / 10);
    }
  }

  // Leading zeros do not change the number.
  lemma {:induction false} LeadingZeros(n: nat, s: string)
    requires forall k :: 0 <= k < |s| ==> IsDigit(s[k])
    ensures forall k :: 0 <= k < n + |s| ==> IsDigit((Repeat('0', n) + s)[k])
    ensures DigitsValue(Repeat('0', n) + s) == DigitsValue(s)
    decreases |s|, n
  {
    var t := Repeat('0', n) + s;
    if s != [] {
      LeadingZeros(n, s[..|s| - 1]);
      assert t[..|t| - 1] == Repeat('0', n) + s[..|s| - 1];
    } else if n > 0 {
      LeadingZeros(n - 1, []);
      assert t[..|t| - 1] == Repeat('0', n - 1) + [];
    }
  }

  // What put_num writes with zero padding reads back as the number, whatever
  // its sign and the width.
  lemma NumTextRoundTrip(v: int, width: nat)
    ensures Denotes(NumText(v, width, '0'), v)
  {
    hide Digits;
    var digits := Digits(Magnitude(v));
    var padded := PadLeft(digits, width, '0');
    DigitsRoundTrip(Magnitude(v));
    var zeros := if |digits| < width then width - |digits| else 0;
    LeadingZeros(zeros, digits);
    assert padded == Repeat('0', zeros) + digits;
    var s := NumText(v, width, '0');
    if v < 0 {
      assert s[1..] == padded;
    } else {
      assert s == padded;
    }
  }

  // A number behind any number of blanks.
  predicate BlankDenotes(s: string, v: int) {
    exists k :: 0 <= k <= |s| && (forall j :: 0 <= j < k ==> s[j] == ' ') && Denotes(s[k..], v)
  }

  function Max(a: nat, b: nat): nat {
    if a < b then b else a
  }

  // Without padding a number is its sign and its digits, and reads back.
  lemma PlainRoundTrip(v: int)
    ensures Denotes(Sign(v) + Digits(Magnitude(v)), v)
  {
    hide Digits;
    NumTextRoundTrip(v, 0);
    assert PadLeft(Digits(Magnitude(v)), 0, '0') == Digits(Magnitude(v));
  }

  // Blank padding reads back too; the sign stays with the digits.
  lemma SpacePaddedRoundTrip(v: int, width: nat)
    ensures BlankDenotes(SpacePadded(v, width), v)
    ensures |SpacePadded(v, width)| == Max(width, |Sign(v)| + |Digits(Magnitude(v))|)
  {
    hide Digits, Denotes;
    PlainRoundTrip(v);
    var body := Sign(v) + Digits(Magnitude(v));
    var s := SpacePadded(v, width);
    var k := |s| - |body|;
    assert s[k..] == body;
  }

  // "%0*d" reads back, and is as wide as asked or as needed.
  lemma ZeroPaddedRoundTrip(v: int, width: nat)
    ensures Denotes(ZeroPadded(v, width), v)
    ensures |ZeroPadded(v, width)| == Max(width, |Sign(v)| + |Digits(Magnitude(v))|)
  {
    hide Digits, Denotes;
    DigitsRoundTrip(Magnitude(v));
    var inner := if width > |Sign(v)| then width - |Sign(v)| else 0;
    NumTextRoundTrip(v, inner);
    assert ZeroPadded(v, width) == NumText(v, inner, '0');
  }

  // put_num counts only the digits into the width.
  lemma NumTextLength(v: int, width: nat, pad: char)
    ensures |NumText(v, width, pad)| == |Sign(v)| + Max(width, |Digits(Magnitude(v))|)
  {
    hide Digits;
  }

  // ---- fixed-width numbers ----

  lemma DigitsLength(u: nat)
    ensures u < 10 <==> |Digits(u)| == 1
    ensures 10 <= u < 100 <==> |Digits(u)| == 2
    ensures |Digits(u)| >= 1
  {
    if u >= 10 {
      DigitsLength(u / 10);
    }
  }

  lemma TwoDigits(x: nat)
    requires x < 100
    ensures NumText(x, 2, '0') == [DigitChar(x / 10), DigitChar(x % 10)]
  {
    DigitsLength(x);
    if x < 10 {
      assert Digits(x) == [DigitChar(x)];
    } else {
      assert Digits(x) == Digits(x / 10) + [DigitChar(x % 10)];
      assert Digits(x / 10) == [DigitChar(x / 10)];
    }
  }

  lemma DigitsByHundred(y: nat)
    requires y >= 100
    ensures Digits(y) == Digits(y / 100) + [DigitChar(y % 100 / 10), DigitChar(y % 100 % 10)]
  {
    assert Digits(y) == Digits(y / 10) + [DigitChar(y % 10)];
    assert Digits(y / 10) == Digits(y / 10 / 10) + [DigitChar(y / 10 % 10)];
    assert y / 10 / 10 == y / 100 && y / 10 % 10 == y % 100 / 10 && y % 10 == y % 100 % 10;
  }

  // Century then year of century is the year: "%C%y" is "%Y".
  lemma CenturyThenYear(y: nat)
    ensures NumText(y / 100, 2, '0') + NumText(y % 100, 2, '0') == NumText(y, 4, '0')
  {
    var lo := y % 100;
    TwoDigits(lo);
    if y < 100 {
      TwoDigits(0);
      assert y / 100 == 0;
      if y < 10 {
        assert Digits(y) == [DigitChar(y)];
      } else {
        assert Digits(y) == Digits(y / 10) + [DigitChar(y % 10)];
        assert Digits(y / 10) == [DigitChar(y / 10)];
      }
    } else {
      DigitsByHundred(y);
      DigitsLength(y / 100);
    }
  }

  lemma FourDigits(y: nat)
    requires y < 10000
    ensures |NumText(y, 4, '0')| == 4
    ensures NumText(y, 4, '0')
            == [DigitChar(y / 100 / 10), DigitChar(y / 100 % 10), DigitChar(y % 100 / 10), DigitChar(y % 100 % 10)]
  {
    CenturyThenYear(y);
    TwoDigits(y / 100);
    TwoDigits(y % 100);
  }

  // For non-negative numbers put_num and "%0*d" agree.
  lemma ZeroPaddedIsNumText(v: nat, width: nat)
    ensures ZeroPadded(v, width) == NumText(v, width, '0')
  {
  }

  // For all numbers they agree unless the sign eats into the padding.
  lemma SignInWidth(v: int, width: nat)
    requires width > 0
    ensures ZeroPadded(v, width) == NumText(v, width, '0') <==> v >= 0 || |Digits(Magnitude(v))| >= width
    ensures |ZeroPadded(v, width)| == |NumText(v, width, '0')| <==> v >= 0 || |Digits(Magnitude(v))| >= width
  {
    hide Digits;
    ZeroPaddedRoundTrip(v, width);
    NumTextLength(v, width, '0');
  }

  // A negative century and year are a negative year only when the year part is
  // zero: otherwise it brings a second sign, or the century loses the first.
  lemma NegativeCenturyThenYear(m: int)
    requires m > 0
    ensures NumText(-(m / 100), 2, '0') + NumText(-(m % 100), 2, '0') == NumText(-m, 4, '0') <==> m % 100 == 0
  {
    var hi, lo := NumText(m / 100, 2, '0'), NumText(m % 100, 2, '0');
    CenturyThenYear(m);
    TwoDigits(m % 100);
    hide Digits;
    assert NumText(-m, 4, '0') == "-" + (hi + lo);
    if m % 100 != 0 {
      assert NumText(-(m % 100), 2, '0') == "-" + lo;
      if m < 100 {
        assert (hi + ("-" + lo))[0] == hi[0];
        TwoDigits(0);
        assert hi[0] == '0';
      }
    } else {
      assert NumText(-(m / 100), 2, '0') == "-" + hi;
      assert "-" + (hi + lo) == "-" + hi + lo;
    }
  }

  // ---- dictionary order ----

  predicate LexLess(a: string, b: string) {
    if b == [] then false
    else if a == [] then true
    else a[0] < b[0] || (a[0] == b[0] && LexLess(a[1..], b[1..]))
  }

  lemma {:induction false} LexOfConcat(a: string, b: string, c: string, d: string)
    requires |a| == |c|
    ensures LexLess(a + b, c + d) <==> LexLess(a, c) || (a == c && LexLess(b, d))
  {
    if a == [] {
      assert a + b == b && c + d == d;
    } else {
      assert (a + b)[1..] == a[1..] + b && (c + d)[1..] == c[1..] + d;
      LexOfConcat(a[1..], b, c[1..], d);
      assert a == [a[0]] + a[1..] && c == [c[0]] + c[1..];
    }
  }

  lemma LexIrreflexive(a: string)
    ensures !LexLess(a, a)
  {
  }

  lemma LexOfTwo(a: char, b: char, c: char, d: char)
    ensures LexLess([a, b], [c, d]) <==> a < c || (a == c && b < d)
  {
    assert [a, b][1..] == [b] && [c, d][1..] == [d];
    assert LexLess([b], [d]) <==> b < d by {
      assert [b][1..] == [] && [d][1..] == [];
    }
  }

  // Equal-width decimal fields sort as their numbers.
  lemma TwoDigitsOrder(x: nat, y: nat)
    requires x < 100 && y < 100
    ensures LexLess(NumText(x, 2, '0'), NumText(y, 2, '0')) <==> x < y
    ensures NumText(x, 2, '0') == NumText(y, 2, '0') <==> x == y
  {
    TwoDigits(x);
    TwoDigits(y);
    LexOfTwo(DigitChar(x / 10), DigitChar(x % 10), DigitChar(y / 10), DigitChar(y % 10));
    assert NumText(x, 2, '0')[0] == DigitChar(x / 10) && NumText(x, 2, '0')[1] == DigitChar(x % 10);
    assert NumText(y, 2, '0')[0] == DigitChar(y / 10) && NumText(y, 2, '0')[1] == DigitChar(y % 10);
  }

  lemma FourDigitsOrder(x: nat, y: nat)
    requires x < 10000 && y < 10000
    ensures LexLess(NumText(x, 4, '0'), NumText(y, 4, '0')) <==> x < y
    ensures NumText(x, 4, '0') == NumText(y, 4, '0') <==> x == y
  {
    hide NumText, LexLess;
    CenturyThenYear(x);
    CenturyThenYear(y);
    TwoDigitsOrder(x / 100, y / 100);
    TwoDigitsOrder(x % 100, y % 100);
    TwoDigits(x / 100);
    TwoDigits(y / 100);
    TwoDigits(x % 100);
    TwoDigits(y % 100);
    var a, b, c, d := NumText(x / 100, 2, '0'), NumText(x % 100, 2, '0'), NumText(y / 100, 2, '0'), NumText(y % 100, 2, '0');
    LexOfConcat(a, b, c, d);
    assert (a + b)[..2] == a && (a + b)[2..] == b && (c + d)[..2] == c && (c + d)[2..] == d;
  }
}
