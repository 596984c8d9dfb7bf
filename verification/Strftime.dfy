// libc/calendar.c, "formatting": strftime as a loop over a bounded buffer, the
// unbounded expansion it refines, and asctime_r.
module Strftime {
  import opened CInt
  import opened Decimal
  import opened CalendarTime

  const WDAY_SHORT: seq<string> := ["Sun", "Mon", "Tue", "Wed", "Thu", "Fri", "Sat"]

  const WDAY_LONG: seq<string> :=
    ["Sunday", "Monday", "Tuesday", "Wednesday", "Thursday", "Friday", "Saturday"]

  const MON_SHORT: seq<string> :=
    ["Jan", "Feb", "Mar", "Apr", "May", "Jun", "Jul", "Aug", "Sep", "Oct", "Nov", "Dec"]

  const MON_LONG: seq<string> :=
    ["January", "February", "March", "April", "May", "June",
     "July", "August", "September", "October", "November", "December"]

  // ---- the unbounded expansion ----

  // What snprintf leaves in a buffer of the given size.
  function Snprintf(size: nat, text: string): string
    requires size > 0
  {
    if |text| < size then text else text[..size - 1]
  }

  // tm_year + 1900 as an int.
  function CYear(v: TmValue): int32 {
    ToInt32(v.year + 1900)
  }

  function WdayIndex(v: TmValue): (i: int)
    ensures 0 <= i < 7
  {
    if 0 <= v.wday < 7 then v.wday else 0
  }

  function MonIndex(v: TmValue): (i: int)
    ensures 0 <= i < 12
  {
    if 0 <= v.mon < 12 then v.mon else 0
  }

  function Hour12(v: TmValue): int {
    if Rem(v.hour, 12) == 0 then 12 else Rem(v.hour, 12)
  }

  // The conversions that are one number: value, width and padding.
  datatype Number = Number(value: int, width: nat, pad: char) | NotANumber

  function NumberOf(c: char, v: TmValue): Number {
    match c
    case 'C' => Number(Quot(CYear(v), 100), 2, '0')
    case 'd' => Number(v.mday, 2, '0')
    case 'e' => Number(v.mday, 2, ' ')
    case 'H' => Number(v.hour, 2, '0')
    case 'I' => Number(Hour12(v), 2, '0')
    case 'j' => Number(ToInt32(v.yday + 1), 3, '0')
    case 'm' => Number(ToInt32(v.mon + 1), 2, '0')
    case 'M' => Number(v.min, 2, '0')
    case 'S' => Number(v.sec, 2, '0')
    case 'u' => Number(if WdayIndex(v) == 0 then 7 else WdayIndex(v), 1, '0')
    case 'w' => Number(WdayIndex(v), 1, '0')
    case 'y' => Number(Rem(CYear(v), 100), 2, '0')
    case 'Y' => Number(CYear(v), 4, '0')
    case 's' => Number(FoldedSeconds(v), 1, '0')
    case _ => NotANumber
  }

  function TimeText(v: TmValue): string {
    ZeroPadded(v.hour, 2) + ":" + ZeroPadded(v.min, 2) + ":" + ZeroPadded(v.sec, 2)
  }

  // The conversions that are text; an unknown one is copied through verbatim.
  function TextOf(c: char, v: TmValue): string {
    match c
    case 'a' => WDAY_SHORT[WdayIndex(v)]
    case 'A' => WDAY_LONG[WdayIndex(v)]
    case 'b' => MON_SHORT[MonIndex(v)]
    case 'h' => MON_SHORT[MonIndex(v)]
    case 'B' => MON_LONG[MonIndex(v)]
    case 'n' => "\n"
    case 'p' => if v.hour < 12 then "AM" else "PM"
    case 't' => "\t"
    case 'Z' => "UTC"
    case 'z' => "+0000"
    case 'D' => Snprintf(16, ZeroPadded(ToInt32(v.mon + 1), 2) + "/" + ZeroPadded(v.mday, 2) + "/"
                             + ZeroPadded(Rem(CYear(v), 100), 2))
    case 'F' => Snprintf(24, ZeroPadded(CYear(v), 4) + "-" + ZeroPadded(ToInt32(v.mon + 1), 2) + "-"
                             + ZeroPadded(v.mday, 2))
    case 'R' => Snprintf(8, ZeroPadded(v.hour, 2) + ":" + ZeroPadded(v.min, 2))
    case 'T' => Snprintf(12, TimeText(v))
    case 'c' => Snprintf(40, WDAY_SHORT[WdayIndex(v)] + " " + MON_SHORT[MonIndex(v)] + " "
                             + SpacePadded(v.mday, 2) + " " + TimeText(v) + " " + SpacePadded(CYear(v), 0))
    case '%' => "%"
    case _ => ['%', c]
  }

  function Conversion(c: char, v: TmValue): string {
    match NumberOf(c, v)
    case Number(value, width, pad) => NumText(value, width, pad)
    case NotANumber => TextOf(c, v)
  }

  // Characters from the '%' to the conversion letter: an E or O is skipped.
  function LetterAt(f: string): (k: nat)
    requires f != []
    ensures 1 <= k <= |f|
  {
    if |f| > 1 && (f[1] == 'E' || f[1] == 'O') then 2 else 1
  }

  // The first piece of a format, a character or a conversion, is this long...
  function PieceLength(f: string): (k: nat)
    requires f != []
    ensures 1 <= k <= |f|
  {
    if f[0] != '%' then 1
    else if LetterAt(f) == |f| then |f|
    else LetterAt(f) + 1
  }

  // ... and produces this text. A '%' with nothing after it stands for itself.
  function PieceText(f: string, v: TmValue): string
    requires f != []
  {
    if f[0] != '%' then [f[0]]
    else if LetterAt(f) == |f| then "%"
    else Conversion(f[LetterAt(f)], v)
  }

  // The expansion of a whole format, with no limit on its length.
  function Expand(f: string, v: TmValue): string {
    if f == [] then [] else PieceText(f, v) + Expand(f[PieceLength(f)..], v)
  }

  // ---- the bounded buffer ----

  // A NUL-terminated string with nothing after its terminator.
  predicate CString(s: seq<char>) {
    |s| > 0 && s[|s| - 1] == '\0' && forall k :: 0 <= k < |s| - 1 ==> s[k] != '\0'
  }

  // put: append if it fits.
  method Put(out: array<char>, max: nat, n: nat, s: string) returns (ok: bool, m: nat)
    requires n < max <= out.Length
    modifies out
    ensures n <= m < max
    ensures ok <==> n + |s| < max
    ensures ok ==> m == n + |s| && out[n..m] == s
    ensures forall k :: 0 <= k < out.Length && !(n <= k < m) ==> out[k] == old(out[k])
  {
    m := n;
    var i := 0;
    while i < |s|
      invariant 0 <= i <= |s| && m == n + i < max
      invariant out[n..m] == s[..i]
      invariant forall k :: 0 <= k < out.Length && !(n <= k < m) ==> out[k] == old(out[k])
    {
      if m + 1 >= max { return false, m; }
      out[m] := s[i];
      m, i := m + 1, i + 1;
    }
    return true, m;
  }

  function Reverse(s: string): (r: string)
    ensures |r| == |s| && forall k :: 0 <= k < |s| ==> r[k] == s[|s| - 1 - k]
  {
    seq(|s|, k requires 0 <= k < |s| => s[|s| - 1 - k])
  }

  function Pow10(k: nat): nat {
    if k == 0 then 1 else 10 * Pow10(k - 1)
  }

  lemma WordHas20Digits()
    ensures TWO63 < Pow10(20)
  {
    assert Pow10(5) == 100000;
    assert Pow10(10) == 10000000000;
    assert Pow10(15) == 1000000000000000;
  }

  lemma FewerDigits(u: nat, k: nat)
    requires 0 < u < Pow10(k)
    ensures 1 <= k && u / 10 < Pow10(k - 1)
  {
  }

  lemma LastDigit(u: nat)
    ensures Digits(u) == (if u / 10 == 0 then [] else Digits(u / 10)) + [DigitChar(u % 10)]
  {
  }

  lemma ReverseSnoc(s: string, c: char)
    ensures Reverse(s + [c]) == [c] + Reverse(s)
  {
  }

  lemma RepeatGrows(c: char, s: string)
    ensures Repeat(c, 0) + s == s
    ensures forall n: nat :: [c] + (Repeat(c, n) + s) == Repeat(c, n + 1) + s
  {
  }

  lemma PaddedTo(s: string, width: nat, pad: char)
    ensures PadLeft(s, width, pad) == Repeat(pad, if |s| < width then width - |s| else 0) + s
  {
  }

  // The digit loop of put_num: least significant first, at most 20 of them.
  method DigitsBackwards(buf: array<char>, v: nat) returns (i: nat)
    requires buf.Length == 32 && v < TWO63
    modifies buf
    ensures 1 <= i <= 20 && Reverse(buf[..i]) == Digits(v)
  {
    hide Digits, Pow10, Reverse, DigitChar;
    WordHas20Digits();
    i := 0;
    var u: nat := v;
    ghost var done: string := [];
    assert Reverse([]) == [] && Digits(v) + [] == Digits(v);
    // do { ... } while (u)
    while i == 0 || u != 0
      invariant 0 <= i <= 20 && (i > 0 ==> u < Pow10(20 - i)) && (i == 0 ==> u == v)
      invariant buf[..i] == done
      invariant Digits(v) == (if i > 0 && u == 0 then [] else Digits(u)) + Reverse(done)
      decreases if i == 0 then 1 else 0, u
    {
      if u != 0 {
        FewerDigits(u, 20 - i);
      } else {
        FewerDigits(1, 20);
      }
      LastDigit(u);
      ReverseSnoc(done, DigitChar(u % 10));
      buf[i] := DigitChar(u % 10);
      done := done + [DigitChar(u % 10)];
      i := i + 1;
      u := u / 10;
    }
  }

  // The padding loop of put_num.
  method PadBackwards(buf: array<char>, start: nat, width: nat, pad: char) returns (i: nat)
    requires buf.Length == 32 && start <= 20 && width < 32
    modifies buf
    ensures i <= 31 && Reverse(buf[..i]) == PadLeft(Reverse(old(buf[..start])), width, pad)
  {
    hide Reverse, Repeat, PadLeft;
    i := start;
    ghost var done := buf[..start];
    ghost var digits := Reverse(done);
    RepeatGrows(pad, digits);
    while i < width
      invariant start <= i <= 31 && (i <= width || i == start)
      invariant buf[..i] == done
      invariant Reverse(done) == Repeat(pad, i - start) + digits
    {
      ReverseSnoc(done, pad);
      buf[i] := pad;
      done := done + [pad];
      i := i + 1;
    }
    PaddedTo(digits, width, pad);
  }

  // put_num: digits, padding and sign backwards into a local buffer of 32
  // characters, then the buffer from its end.
  method PutNum(out: array<char>, max: nat, n: nat, v: int, width: nat, pad: char) returns (ok: bool, m: nat)
    requires n < max <= out.Length
    requires -TWO63 < v < TWO63 && width < 32
    modifies out
    ensures n <= m < max
    ensures ok <==> n + |NumText(v, width, pad)| < max
    ensures ok ==> m == n + |NumText(v, width, pad)| && out[n..m] == NumText(v, width, pad)
    ensures forall k :: 0 <= k < out.Length && !(n <= k < m) ==> out[k] == old(out[k])
  {
    hide Digits, PadLeft;
    var buf := new char[32];
    var i := DigitsBackwards(buf, Magnitude(v));
    i := PadBackwards(buf, i, width, pad);
    ghost var padded := Reverse(buf[..i]);
    if v < 0 {
      buf[i] := '-';
      i := i + 1;
      assert Reverse(buf[..i]) == ['-'] + padded;
    }
    assert Reverse(buf[..i]) == NumText(v, width, pad);
    ok, m := PutBackwards(out, max, n, buf, i);
  }

  // The output loop of put_num.
  method PutBackwards(out: array<char>, max: nat, n: nat, buf: array<char>, len: nat) returns (ok: bool, m: nat)
    requires n < max <= out.Length && len <= buf.Length && buf != out
    modifies out
    ensures n <= m < max
    ensures ok <==> n + len < max
    ensures ok ==> m == n + len && out[n..m] == Reverse(buf[..len])
    ensures forall k :: 0 <= k < out.Length && !(n <= k < m) ==> out[k] == old(out[k])
  {
    ghost var text := Reverse(buf[..len]);
    var i := len;
    m := n;
    while i > 0
      invariant 0 <= i <= len && m == n + len - i < max
      invariant out[n..m] == text[..len - i]
      invariant forall k :: 0 <= k < out.Length && !(n <= k < m) ==> out[k] == old(out[k])
    {
      i := i - 1;
      if m + 1 >= max { return false, m; }
      out[m] := buf[i];
      m := m + 1;
    }
    return true, m;
  }

  // Every number a conversion prints fits put_num.
  lemma NumberFits(c: char, v: TmValue)
    ensures NumberOf(c, v).Number? ==> -TWO63 < NumberOf(c, v).value < TWO63 && NumberOf(c, v).width < 32
  {
    hide FoldedSeconds, ToInt32;
    FoldedSecondsStrict(v);
  }

  lemma FoldedSecondsStrict(v: TmValue)
    ensures -TWO63 < FoldedSeconds(v) < TWO63
  {
    FoldedDaysBounds(v);
  }

  // One turn of the switch. "%s" normalises a copy, not the caller's struct.
  method PutConversion(out: array<char>, max: nat, n: nat, c: char, tm: Tm) returns (ok: bool, m: nat)
    requires n < max <= out.Length
    modifies out
    ensures n <= m < max
    ensures ok <==> n + |Conversion(c, tm.Value())| < max
    ensures ok ==> m == n + |Conversion(c, tm.Value())| && out[n..m] == Conversion(c, tm.Value())
    ensures forall k :: 0 <= k < out.Length && !(n <= k < m) ==> out[k] == old(out[k])
  {
    hide FoldedSeconds, NumText, Snprintf, ToInt32, Broken, NumberOf, TextOf;
    ghost var v := tm.Value();
    NumberFits(c, v);
    if c == 's' {
      var copy := new Tm(tm.Value());
      var secs := copy.Timegm();
      assert NumberOf('s', v) == Number(secs, 1, '0') by { SecondsConversion(v); }
      ok, m := PutNum(out, max, n, secs, 1, '0');
    } else {
      var number := NumberOf(c, tm.Value());
      match number
      case Number(value, width, pad) =>
        ok, m := PutNum(out, max, n, value, width, pad);
      case NotANumber =>
        ok, m := Put(out, max, n, TextOf(c, tm.Value()));
    }
  }

  lemma SecondsConversion(v: TmValue)
    ensures NumberOf('s', v) == Number(FoldedSeconds(v), 1, '0')
  {
  }

  // One turn of strftime's loop: the piece of the format at p. Returns where
  // the output and the format stand afterwards.
  method PutPiece(out: array<char>, max: nat, n: nat, fmt: seq<char>, p: nat, tm: Tm)
    returns (ok: bool, m: nat, q: nat)
    requires n < max <= out.Length && CString(fmt) && p < |fmt| - 1
    modifies out
    ensures n <= m < max
    ensures var text := PieceText(fmt[p..|fmt| - 1], tm.Value());
            && (ok <==> n + |text| < max)
            && (ok ==> m == n + |text| && out[n..m] == text)
    ensures ok ==> q == p + PieceLength(fmt[p..|fmt| - 1])
    ensures forall k :: 0 <= k < out.Length && !(n <= k < m) ==> out[k] == old(out[k])
  {
    hide Conversion;
    ghost var rest := fmt[p..|fmt| - 1];
    m, q := n, p;
    if fmt[q] != '%' {
      if n + 1 >= max { return false, m, q; }
      out[m] := fmt[q];
      m := m + 1;
    } else {
      q := q + 1;
      if fmt[q] == 'E' || fmt[q] == 'O' { q := q + 1; }
      assert q == p + LetterAt(rest);
      if fmt[q] == '\0' {
        if n + 1 >= max { return false, m, q; }
        out[m] := '%';
        m := m + 1;
        q := q - 1;
      } else {
        assert rest[LetterAt(rest)] == fmt[q];
        ok, m := PutConversion(out, max, n, fmt[q], tm);
        if !ok { return; }
      }
    }
    return true, m, q + 1;
  }

  // strftime: for every format, either the whole expansion fits and is
  // written with its terminator, or nothing is promised but 0. The format is
  // never read past its NUL and nothing is written at or beyond max.
  method Strftime(out: array<char>, max: nat, fmt: seq<char>, tm: Tm) returns (r: nat)
    requires max <= out.Length && CString(fmt)
    modifies out
    ensures var text := Expand(fmt[..|fmt| - 1], tm.Value());
            if |text| < max then r == |text| && out[..r] == text && out[r] == '\0' else r == 0
    ensures forall k :: max <= k < out.Length ==> out[k] == old(out[k])
  {
    hide PieceText, PieceLength;
    if max == 0 { return 0; }
    ghost var f := fmt[..|fmt| - 1];
    ghost var text := Expand(f, tm.Value());
    var n, p := 0, 0;
    assert f[0..] == f;
    while fmt[p] != '\0'
      invariant 0 <= p <= |f| && n < max
      invariant text == out[..n] + Expand(f[p..], tm.Value())
      invariant forall k :: max <= k < out.Length ==> out[k] == old(out[k])
      decreases |f| - p
    {
      ghost var done, rest := out[..n], f[p..];
      assert rest == fmt[p..|fmt| - 1];
      ghost var k := PieceLength(rest);
      assert rest[k..] == f[p + k..];
      var ok, m, q := PutPiece(out, max, n, fmt, p, tm);
      if !ok { return 0; }
      assert out[..m] == done + PieceText(rest, tm.Value());
      n, p := m, q;
    }
    out[n] := '\0';
    return n;
  }
}
