/**
 * Decimal text and the numbers it denotes: Python's `str(int)`, `int(text)`,
 * `float(text)` restricted to amounts exact to the cent, and the zero padding
 * used by the fixed-width format.
 */
module Numerals {
  import opened Wrappers
  import opened Text

  predicate IsDigit(c: char) {
    '0' <= c <= '9'
  }

  /** A digit is never whitespace, so `strip()` keeps it. */
  lemma DigitNotSpace(c: char)
    requires IsDigit(c)
    ensures !IsSpace(c)
  {
  }

  /** Digit text has no whitespace at its ends, so `strip()` leaves it as it is. */
  lemma DigitTextStripped(s: string)
    requires |s| > 0 && IsDigit(s[0]) && IsDigit(s[|s| - 1])
    ensures Strip(s) == s
  {
    DigitNotSpace(s[0]);
    DigitNotSpace(s[|s| - 1]);
  }

  predicate AllDigits(s: string) {
    forall k :: 0 <= k < |s| ==> IsDigit(s[k])
  }

  function DigitChar(d: nat): (c: char)
    requires d < 10
    ensures IsDigit(c)
  {
    ('0' as int + d) as char
  }

  function DigitValue(c: char): (d: nat)
    requires IsDigit(c)
    ensures d < 10 && DigitChar(d) == c
  {
    c as int - '0' as int
  }

  function Pow10(n: nat): (p: nat)
    ensures p >= 1
  {
    if n == 0 then 1 else 10 * Pow10(n - 1)
  }

  /** The number a string of decimal digits denotes, most significant digit first. */
  function DigitsValue(s: string): nat
    requires AllDigits(s)
  {
    if |s| == 0 then 0 else DigitsValue(s[..|s| - 1]) * 10 + DigitValue(s[|s| - 1])
  }

  /** `str(n)` for a natural number: its digits with no leading zero. */
  function NatToString(n: nat): (r: string)
    ensures |r| > 0
  {
    if n < 10 then [DigitChar(n)] else NatToString(n / 10) + [DigitChar(n % 10)]
  }

  /** `str(n)` is canonical digit text denoting `n`: `int(str(n)) == n`. */
  lemma {:induction false} NatToStringDigits(n: nat)
    ensures AllDigits(NatToString(n))
    ensures DigitsValue(NatToString(n)) == n
    ensures NatToString(n)[0] == '0' ==> n == 0 && NatToString(n) == "0"
  {
    if n >= 10 {
      var prefix := NatToString(n / 10);
      NatToStringDigits(n / 10);
      var r := prefix + [DigitChar(n % 10)];
      assert r[..|r| - 1] == prefix;
      assert r[0] == prefix[0];
    }
  }

  /** `str(i)`: a minus sign before the digits of a negative number. */
  function IntToString(i: int): (r: string)
    ensures |r| > 0
    ensures i >= 0 ==> r == NatToString(i)
    ensures i < 0 ==> r == "-" + NatToString(-i)
  {
    if i < 0 then "-" + NatToString(-i) else NatToString(i)
  }

  /** Text `int()` accepts once stripped: one optional sign, then at least one digit. */
  predicate IntegerText(t: string) {
    || (|t| > 0 && AllDigits(t))
    || (|t| > 1 && (t[0] == '-' || t[0] == '+') && AllDigits(t[1..]))
  }

  /**
   * `int(text)`: surrounding whitespace is ignored, one optional sign, then at
   * least one digit; anything else is a ValueError, here `None`.
   */
  function ParseInt(s: string): (r: Option<int>)
    ensures r.Some? <==> IntegerText(Strip(s))
    ensures AllDigits(Strip(s)) && |Strip(s)| > 0 ==> r == Some(DigitsValue(Strip(s)))
    ensures r.Some? && Strip(s)[0] == '-' ==> r.value <= 0 && r.value == 0 - DigitsValue(Strip(s)[1..])
    ensures r.Some? && Strip(s)[0] == '+' ==> r.value >= 0 && r.value == DigitsValue(Strip(s)[1..])
  {
    ParseStripped(Strip(s))
  }

  /** `int()` on text whose surrounding whitespace is already gone. */
  function ParseStripped(t: string): (r: Option<int>)
    ensures r.Some? <==> IntegerText(t)
    ensures AllDigits(t) && |t| > 0 ==> r == Some(DigitsValue(t))
    ensures r.Some? && t[0] == '-' ==> r.value <= 0 && r.value == 0 - DigitsValue(t[1..])
    ensures r.Some? && t[0] == '+' ==> r.value >= 0 && r.value == DigitsValue(t[1..])
  {
    if |t| > 0 && (t[0] == '-' || t[0] == '+') then
      var body := t[1..];
      if |body| > 0 && AllDigits(body) then
        var v: int := DigitsValue(body);
        Some(if t[0] == '-' then -v else v)
      else None
    else if |t| > 0 && AllDigits(t) then Some(DigitsValue(t))
    else None
  }

  /** Index of the first occurrence of `c` in `s`. */
  function FindChar(s: string, c: char): (r: Option<nat>)
    ensures r.Some? ==> r.value < |s|
  {
    if |s| == 0 then None
    else if s[0] == c then Some(0)
    else match FindChar(s[1..], c)
      case Some(i) => Some(i + 1)
      case None => None
  }

  /** `find` returns the first position holding `c`, or nothing when `c` does not occur. */
  lemma {:induction false} FindCharFirst(s: string, c: char)
    ensures FindChar(s, c).Some? ==> var i := FindChar(s, c).value;
              s[i] == c && forall k :: 0 <= k < i ==> s[k] != c
    ensures FindChar(s, c).None? ==> forall k :: 0 <= k < |s| ==> s[k] != c
  {
    if |s| > 0 && s[0] != c {
      FindCharFirst(s[1..], c);
      assert forall k :: 1 <= k < |s| ==> s[k] == s[1..][k - 1];
    }
  }

  /**
   * The value of unsigned decimal text (`"12"`, `"12.5"`, `".05"`, `"7."`)
   * in hundredths. Text with more than two fractional digits is not a whole
   * number of cents and yields `None`.
   */
  function UnsignedCents(b: string): Option<int>
  {
    var (ip, fp) := match FindChar(b, '.')
      case Some(i) => (b[..i], b[i + 1..])
      case None => (b, "");
    if AllDigits(ip) && AllDigits(fp) && |ip| + |fp| >= 1 && |fp| <= 2 then
      var digits := ip + fp + Zeros(2 - |fp|);
      assert forall k :: 0 <= k < |digits| ==> IsDigit(digits[k]);
      Some(DigitsValue(digits))
    else None
  }

  /**
   * `float(text)` for text that denotes a whole number of cents, as an
   * integer number of cents: optional whitespace, one optional sign, digits
   * with at most one decimal point.
   */
  function ParseCents(s: string): Option<int>
  {
    var t := Strip(s);
    if |t| > 0 && (t[0] == '-' || t[0] == '+') then
      match UnsignedCents(t[1..])
      case Some(v) => Some(if t[0] == '-' then -v else v)
      case None => None
    else UnsignedCents(t)
  }

  function Zeros(n: nat): (z: string)
    ensures |z| == n && forall k :: 0 <= k < n ==> z[k] == '0'
  {
    seq(n, _ => '0')
  }

  /** `'0' * (width - len(s)) + s` when `s` is shorter than `width`; otherwise `s` itself. */
  function PadLeft(s: string, width: int): (r: string)
    ensures |r| == if |s| < width then width else |s|
    ensures r[|r| - |s|..] == s
    ensures forall k :: 0 <= k < |r| - |s| ==> r[k] == '0'
  {
    if |s| < width then Zeros(width - |s|) + s else s
  }

  /** Padding a string that already has the width is the identity, so padding twice is padding once. */
  lemma PadLeftIdempotent(s: string, width: int)
    ensures PadLeft(PadLeft(s, width), width) == PadLeft(s, width)
  {
  }

  /** Splitting digit text splits its value. */
  lemma {:induction false} DigitsAppend(a: string, b: string)
    requires AllDigits(a) && AllDigits(b)
    ensures AllDigits(a + b)
    ensures DigitsValue(a + b) == DigitsValue(a) * Pow10(|b|) + DigitsValue(b)
    decreases |b|
  {
    var ab := a + b;
    assert forall k :: 0 <= k < |ab| ==> IsDigit(ab[k]);
    if |b| == 0 {
      assert ab == a;
    } else {
      var b' := b[..|b| - 1];
      assert ab[..|ab| - 1] == a + b';
      DigitsAppend(a, b');
      var d := DigitValue(b[|b| - 1]);
      assert DigitsValue(ab) == DigitsValue(a + b') * 10 + d;
      assert DigitsValue(b) == DigitsValue(b') * 10 + d;
      assert Pow10(|b|) == 10 * Pow10(|b'|);
      ShiftDigit(DigitsValue(a), Pow10(|b'|), DigitsValue(b'), d);
    }
  }

  lemma ShiftDigit(x: int, p: int, y: int, d: int)
    ensures (x * p + y) * 10 + d == x * (10 * p) + (y * 10 + d)
  {
  }

  /** Leading zeros do not change the value of digit text. */
  lemma LeadingZeroValue(p: string)
    requires |p| > 0 && AllDigits(p) && p[0] == '0'
    ensures DigitsValue(p) == DigitsValue(p[1..])
  {
    assert p == p[..1] + p[1..];
    DigitsAppend(p[..1], p[1..]);
    assert DigitsValue(p[..1]) == 0 by {
      assert p[..1][..0] == [];
    }
  }

  /** Digit text without a leading zero is at least one. */
  lemma {:induction false} CanonicalPositive(p: string)
    requires |p| > 0 && AllDigits(p) && p[0] != '0'
    ensures DigitsValue(p) >= 1
    decreases |p|
  {
    if |p| > 1 {
      CanonicalPositive(p[..|p| - 1]);
    }
  }

  /** `str(int(p))` gives back digit text `p` when it has no leading zero. */
  lemma {:induction false} CanonicalRoundTrip(p: string)
    requires |p| > 0 && AllDigits(p) && p[0] != '0'
    ensures NatToString(DigitsValue(p)) == p
    decreases |p|
  {
    if |p| > 1 {
      var q := p[..|p| - 1];
      CanonicalRoundTrip(q);
      CanonicalPositive(q);
      var d := DigitValue(p[|p| - 1]);
      var v := DigitsValue(p);
      assert v == DigitsValue(q) * 10 + d;
      assert v / 10 == DigitsValue(q) && v % 10 == d;
      assert p == q + [p[|p| - 1]];
    }
  }

  /**
   * Zero-padding `str(int(p))` back to the width of `p` restores `p`: the
   * decoder's leading-zero loss is undone by the encoder's padding.
   */
  lemma {:induction false} PadRestoresDigits(p: string)
    requires |p| > 0 && AllDigits(p)
    ensures |NatToString(DigitsValue(p))| <= |p|
    ensures PadLeft(NatToString(DigitsValue(p)), |p|) == p
    decreases |p|
  {
    if p[0] != '0' {
      CanonicalRoundTrip(p);
    } else if |p| == 1 {
      assert p == "0";
    } else {
      LeadingZeroValue(p);
      PadRestoresDigits(p[1..]);
      var n := NatToString(DigitsValue(p));
      PadOneMore(n, |p| - 1);
      assert p == [p[0]] + p[1..];
    }
  }

  /** One more column of width adds one more leading zero. */
  lemma PadOneMore(n: string, w: nat)
    requires |n| <= w
    ensures PadLeft(n, w + 1) == ['0'] + PadLeft(n, w)
  {
    assert Zeros(w + 1 - |n|) == ['0'] + Zeros(w - |n|);
  }

  /** `int(str(i))` gives back `i`. */
  lemma ParseIntRoundTrip(i: int)
    ensures ParseInt(IntToString(i)) == Some(i)
  {
    if i < 0 {
      ParseNegative(i);
    } else {
      ParseNatural(i);
    }
  }

  /** `str(n)` has no whitespace at its ends, so `int()` reads its digits. */
  lemma ParseNatural(n: nat)
    ensures ParseInt(NatToString(n)) == Some(n)
  {
    NatToStringDigits(n);
    DigitsParse(NatToString(n));
  }

  /** `int("")` is a ValueError. */
  lemma EmptyNotInteger()
    ensures ParseInt("") == None
  {
    assert Strip("") == "";
  }

  /** Digit text reads as the number it spells. */
  lemma DigitsParse(p: string)
    requires |p| > 0 && AllDigits(p)
    ensures ParseInt(p) == Some(DigitsValue(p))
  {
    DigitTextStripped(p);
    assert ParseStripped(p) == Some(DigitsValue(p));
  }

  /** `str(i)` of a negative `i` is its sign and digits, which `int()` reads back. */
  lemma ParseNegative(i: int)
    requires i < 0
    ensures ParseInt(IntToString(i)) == Some(i)
  {
    NegativeText(i);
    MinusTextParses(IntToString(i));
  }

  /** `str(i)` of a negative `i`: a minus sign, then digits worth `-i`. */
  lemma NegativeText(i: int)
    requires i < 0
    ensures var s := IntToString(i);
      |s| > 1 && s[0] == '-' && AllDigits(s[1..]) && DigitsValue(s[1..]) == -i
  {
    var s := IntToString(i);
    NatToStringDigits(-i);
    assert s[1..] == NatToString(-i);
  }

  /** A minus sign before digit text is read as the negated digits. */
  lemma MinusTextParses(s: string)
    requires |s| > 1 && s[0] == '-' && AllDigits(s[1..])
    ensures ParseInt(s) == Some(0 - DigitsValue(s[1..]))
  {
    MinusTextStripped(s);
    MinusTextRead(s);
  }

  /** A minus sign and digits have no whitespace to strip. */
  lemma MinusTextStripped(s: string)
    requires |s| > 1 && s[0] == '-' && AllDigits(s[1..])
    ensures Strip(s) == s
  {
    assert s[|s| - 1] == s[1..][|s| - 2];
    DigitNotSpace(s[|s| - 1]);
  }

  /** The sign-and-digits grammar reads a minus sign and digits as their negated value. */
  lemma MinusTextRead(s: string)
    requires |s| > 1 && s[0] == '-' && AllDigits(s[1..])
    ensures ParseStripped(s) == Some(0 - DigitsValue(s[1..]))
  {
  }

  /** Distinct numbers print differently, so `str(i)` can serve as a key. */
  lemma IntToStringInjective(i: int, j: int)
    requires IntToString(i) == IntToString(j)
    ensures i == j
  {
    ParseIntRoundTrip(i);
    ParseIntRoundTrip(j);
  }
}
