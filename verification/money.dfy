/**
 * The money encoder: an amount in cents written back in the file's
 * fixed-width form, its whole part followed by two decimal digits, padded
 * with zeros on the left.
 */
module Money {
  import opened Wrappers
  import opened Text
  import opened Numerals
  import opened Codec

  /** The width of every "13 enteros 2 decimales" amount field. */
  const AMOUNT_WIDTH: nat := 15

  /** What reaches the encoder: an amount in cents, or a value `math.modf` rejects with a TypeError. */
  datatype Value = Cents(cents: int) | NotNumeric

  function Abs(c: int): nat {
    if c < 0 then -c else c
  }

  /** `int(integer)` after `math.modf`: the whole part, truncated toward zero. */
  function WholePesos(c: int): (w: int)
    ensures Abs(c - w * 100) < 100
    ensures c >= 0 ==> 0 <= w && c - w * 100 >= 0
    ensures c <= 0 ==> w <= 0 && c - w * 100 <= 0
  {
    if c >= 0 then c / 100 else -(Abs(c) / 100)
  }

  /** Two decimal digits, `str(decimals)[2:].ljust(2, "0")` for a fraction that is a whole number of cents. */
  function TwoDigits(n: nat): (r: string)
    requires n < 100
    ensures |r| == 2 && AllDigits(r) && DigitsValue(r) == n
  {
    var r := [DigitChar(n / 10), DigitChar(n % 10)];
    assert r[..1] == [DigitChar(n / 10)] && r[..1][..0] == [];
    assert DigitsValue(r[..1]) == n / 10;
    r
  }

  /** `f"{int(integer)}{str(decimals)[2:].ljust(2, '0')}"`: the whole part, then the cents. */
  function AmountDigits(c: int): string {
    IntToString(WholePesos(c)) + TwoDigits(Abs(c) % 100)
  }

  /**
   * `format_number_value` and `format_numeric_string`: the amount's digits
   * padded to the width; a value that is not a number gives None.
   */
  function FormatNumberValue(v: Value, width: int): (r: Option<string>)
    ensures r.None? <==> v.NotNumeric?
    ensures r.Some? ==> |r.value| >= width
  {
    match v
    case NotNumeric => None
    case Cents(c) => Some(PadLeft(AmountDigits(c), width))
  }

  /** The legacy `format_value`: the same encoding at the fixed width of an amount field. */
  function FormatValue(v: Value): (r: Option<string>)
    ensures r.None? <==> v.NotNumeric?
  {
    FormatNumberValue(v, AMOUNT_WIDTH)
  }

  // ---------------------------------------------------------------------
  // Facts about digit text

  lemma {:induction false} ZerosValue(n: nat)
    ensures AllDigits(Zeros(n)) && DigitsValue(Zeros(n)) == 0
    decreases n
  {
    if n > 0 {
      assert Zeros(n)[..n - 1] == Zeros(n - 1);
      ZerosValue(n - 1);
    }
  }

  /** Zero padding keeps digit text's value. */
  lemma PadLeftValue(s: string, width: int)
    requires AllDigits(s)
    ensures AllDigits(PadLeft(s, width)) && DigitsValue(PadLeft(s, width)) == DigitsValue(s)
  {
    if |s| < width {
      ZerosValue(width - |s|);
      DigitsAppend(Zeros(width - |s|), s);
    }
  }

  /** Padding the front of a string pads the front of anything it is followed by. */
  lemma PadLeftAppend(a: string, b: string, width: nat)
    requires |a| <= width
    ensures PadLeft(a + b, width + |b|) == PadLeft(a, width) + b
  {
    if |a| < width {
      assert Zeros(width + |b| - |a + b|) + (a + b) == (Zeros(width - |a|) + a) + b;
    } else {
      assert PadLeft(a + b, width + |b|) == a + b;
    }
  }

  /** A number below `10^k` has at most `k` digits. */
  lemma {:induction false} NatToStringLength(n: nat, k: nat)
    requires n < Pow10(k)
    ensures |NatToString(n)| <= k || (n == 0 && k == 0)
    decreases k
  {
    if n >= 10 {
      assert k >= 2;
      assert n / 10 < Pow10(k - 1);
      NatToStringLength(n / 10, k - 1);
    } else if k == 0 {
    }
  }

  // ---------------------------------------------------------------------
  // float() on decimal text with two decimals

  /** The point of `<digits>.<digits>` is found right after the whole part. */
  lemma PointAfterWhole(whole: string, frac: string)
    requires AllDigits(whole)
    ensures FindChar(whole + "." + frac, '.') == Some(|whole|)
  {
    var s := whole + "." + frac;
    assert s[|whole|] == '.';
    assert forall k :: 0 <= k < |whole| ==> s[k] == whole[k];
    FindCharFirst(s, '.');
  }

  /** Unsigned text whose point is followed by exactly two digits. */
  lemma UnsignedTwoDecimals(s: string, i: nat)
    requires FindChar(s, '.') == Some(i) && |s| == i + 3 && AllDigits(s[..i]) && AllDigits(s[i + 1..])
    ensures UnsignedCents(s) == Some(DigitsValue(s[..i] + s[i + 1..]))
  {
    assert s[..i] + s[i + 1..] + Zeros(0) == s[..i] + s[i + 1..];
  }

  lemma DecimalParts(whole: string, frac: string)
    ensures var s := whole + "." + frac; s[..|whole|] == whole && s[|whole| + 1..] == frac
  {
  }

  /** The unsigned reading of `<digits>.<two digits>`. */
  lemma UnsignedCentsDecimal(whole: string, frac: string)
    requires |whole| > 0 && AllDigits(whole) && |frac| == 2 && AllDigits(frac)
    ensures UnsignedCents(whole + "." + frac) == Some(DigitsValue(whole) * 100 + DigitsValue(frac))
  {
    PointAfterWhole(whole, frac);
    DecimalParts(whole, frac);
    UnsignedTwoDecimals(whole + "." + frac, |whole|);
    DigitsAppend(whole, frac);
  }

  lemma StripKeeps(s: string)
    requires |s| > 0 && !IsSpace(s[0]) && !IsSpace(s[|s| - 1])
    ensures Strip(s) == s
  {
  }

  lemma StrippedUnsigned(s: string)
    requires |s| > 0 && Strip(s) == s && s[0] != '-' && s[0] != '+'
    ensures ParseCents(s) == UnsignedCents(s)
  {
  }

  lemma StrippedMinus(u: string)
    requires |u| > 0 && Strip("-" + u) == "-" + u
    ensures ParseCents("-" + u) == match UnsignedCents(u) case Some(v) => Some(-v) case None => None
  {
    assert ("-" + u)[1..] == u;
  }

  /** Text that starts with a digit and ends without whitespace is read unsigned. */
  lemma ParseCentsUnsigned(s: string)
    requires |s| > 0 && IsDigit(s[0]) && !IsSpace(s[|s| - 1])
    ensures ParseCents(s) == UnsignedCents(s)
  {
    StripKeeps(s);
    StrippedUnsigned(s);
  }

  lemma MinusKept(u: string)
    requires |u| > 0 && !IsSpace(u[|u| - 1])
    ensures Strip("-" + u) == "-" + u
  {
    var s := "-" + u;
    assert s[|s| - 1] == u[|u| - 1];
    StripKeeps(s);
  }

  /** Text after a minus sign is read negated. */
  lemma ParseCentsMinus(u: string)
    requires |u| > 0 && !IsSpace(u[|u| - 1])
    ensures ParseCents("-" + u) == match UnsignedCents(u) case Some(v) => Some(-v) case None => None
  {
    MinusKept(u);
    StrippedMinus(u);
  }

  /** `str()` of a non-negative amount with two decimals: whole part, point, two digits. */
  function PointText(a: nat): string {
    NatToString(a / 100) + "." + TwoDigits(a % 100)
  }

  /** Python's `str(x)` of an amount with two decimals, minus sign included. */
  function CentsText(c: int): string {
    if c < 0 then "-" + PointText(Abs(c)) else PointText(Abs(c))
  }

  lemma DivModHundred(a: nat)
    ensures a / 100 * 100 + a % 100 == a
  {
  }

  /** Digit text, a point and two digits, read back as `pesos * 100 + cents`. */
  lemma DecimalTextValue(w: string, pesos: nat, f: string, cents: nat)
    requires |w| > 0 && AllDigits(w) && DigitsValue(w) == pesos
    requires |f| == 2 && AllDigits(f) && DigitsValue(f) == cents
    ensures var u := w + "." + f;
            |u| > 0 && IsDigit(u[0]) && !IsSpace(u[|u| - 1]) && UnsignedCents(u) == Some(pesos * 100 + cents)
  {
    var u := w + "." + f;
    assert u[0] == w[0] && u[|u| - 1] == f[1];
    UnsignedCentsDecimal(w, f);
  }

  /** The text of a non-negative amount starts with a digit, ends with one, and reads back unsigned. */
  lemma PointTextReads(a: nat)
    ensures var u := PointText(a);
            |u| > 0 && IsDigit(u[0]) && !IsSpace(u[|u| - 1]) && UnsignedCents(u) == Some(a)
  {
    NatToStringDigits(a / 100);
    DecimalTextValue(NatToString(a / 100), a / 100, TwoDigits(a % 100), a % 100);
    DivModHundred(a);
  }

  lemma UnsignedReading(s: string, v: int)
    requires |s| > 0 && IsDigit(s[0]) && !IsSpace(s[|s| - 1]) && UnsignedCents(s) == Some(v)
    ensures ParseCents(s) == Some(v)
  {
    ParseCentsUnsigned(s);
  }

  lemma NegatedReading(s: string, u: string, v: int)
    requires s == "-" + u && |u| > 0 && !IsSpace(u[|u| - 1]) && UnsignedCents(u) == Some(v)
    ensures ParseCents(s) == Some(-v)
  {
    ParseCentsMinus(u);
  }

  /** `float()` of a non-negative amount's text gives back its cents. */
  lemma ParseWholeCents(a: nat)
    ensures ParseCents(PointText(a)) == Some(a)
  {
    PointTextReads(a);
    UnsignedReading(PointText(a), a);
  }

  /** The same after a minus sign gives back the negated cents. */
  lemma ParseNegatedCents(a: nat)
    ensures ParseCents("-" + PointText(a)) == Some(-(a as int))
  {
    PointTextReads(a);
    NegatedReading("-" + PointText(a), PointText(a), a);
  }

  /** `float()` reads back every amount written with two decimals. */
  lemma ParseCentsRoundTrip(c: int)
    ensures ParseCents(CentsText(c)) == Some(c)
  {
    if c < 0 {
      ParseNegatedCents(Abs(c));
    } else {
      ParseWholeCents(Abs(c));
    }
  }

  // ---------------------------------------------------------------------
  // Round trips with the decoder

  /** A non-negative amount is written as `str(c // 100)` and two digits of `c % 100`. */
  lemma AmountDigitsNonNegative(c: int)
    requires c >= 0
    ensures AmountDigits(c) == NatToString(c / 100) + TwoDigits(c % 100)
  {
  }

  /** Two digits are written back as they were read. */
  lemma TwoDigitsOf(f: string)
    requires |f| == 2 && AllDigits(f)
    ensures DigitsValue(f) < 100 && TwoDigits(DigitsValue(f)) == f
  {
    assert f[..1][..0] == [];
    assert DigitsValue(f[..1]) == DigitValue(f[0]);
    var v := DigitsValue(f);
    assert v == DigitValue(f[0]) * 10 + DigitValue(f[1]);
    assert v / 10 == DigitValue(f[0]) && v % 10 == DigitValue(f[1]);
  }

  /** The digits of a fifteen-digit field: thirteen of pesos, two of cents. */
  lemma FieldDigitsSplit(raw: string)
    requires |raw| == AMOUNT_WIDTH && AllDigits(raw)
    ensures raw == raw[..13] + raw[13..]
    ensures DigitsValue(raw) / 100 == DigitsValue(raw[..13])
    ensures DigitsValue(raw) % 100 == DigitsValue(raw[13..]) && TwoDigits(DigitsValue(raw) % 100) == raw[13..]
  {
    var whole := raw[..13];
    var frac := raw[13..];
    assert whole + frac == raw;
    DigitsAppend(whole, frac);
    TwoDigitsOf(frac);
  }

  /** The decoder's reading of a fifteen-digit field, before any arithmetic. */
  lemma FormatAmountField(raw: string)
    requires |raw| == AMOUNT_WIDTH && AllDigits(raw)
    ensures FormatFieldValue(raw, 2) == NatToString(DigitsValue(raw[..13])) + "." + raw[13..]
  {
    assert raw[0] == raw[..13][0] && raw[14] == raw[13..][1];
    assert Strip(raw) == raw;
  }

  lemma CentsTextNonNegative(c: int)
    requires c >= 0
    ensures CentsText(c) == NatToString(c / 100) + "." + TwoDigits(c % 100)
  {
  }

  /**
   * A fifteen-digit amount field decodes to the two-decimal text of the
   * amount its digits denote in cents, so `float()` of the decoded value
   * is that amount (`ParseCentsRoundTrip`).
   */
  lemma DecodeAmountField(raw: string)
    requires |raw| == AMOUNT_WIDTH && AllDigits(raw)
    ensures FormatFieldValue(raw, 2) == CentsText(DigitsValue(raw))
  {
    FormatAmountField(raw);
    FieldDigitsSplit(raw);
    CentsTextNonNegative(DigitsValue(raw));
  }

  /**
   * A fifteen-digit amount field, decoded and encoded again, gives back the
   * same fifteen characters, leading zeros included.
   */
  lemma DecodeEncodeRoundTrip(raw: string)
    requires |raw| == AMOUNT_WIDTH && AllDigits(raw)
    ensures FormatFieldValue(raw, 2) == CentsText(DigitsValue(raw))
    ensures FormatValue(Cents(DigitsValue(raw))) == Some(raw)
  {
    DecodeAmountField(raw);
    EncodeDigitsBack(raw);
  }

  /** The amount a fifteen-digit field denotes is written back as that field. */
  lemma EncodeDigitsBack(raw: string)
    requires |raw| == AMOUNT_WIDTH && AllDigits(raw)
    ensures FormatValue(Cents(DigitsValue(raw))) == Some(raw)
  {
    FieldDigitsSplit(raw);
    var whole := raw[..13];
    var frac := raw[13..];
    AmountDigitsNonNegative(DigitsValue(raw));
    PadRestoresDigits(whole);
    PadLeftAppend(NatToString(DigitsValue(whole)), frac, 13);
  }

  /** Digit text followed by two more digits is worth a hundred times the first part plus the second. */
  lemma DigitsPair(w: string, pesos: nat, f: string, cents: nat)
    requires AllDigits(w) && DigitsValue(w) == pesos && |f| == 2 && AllDigits(f) && DigitsValue(f) == cents
    ensures AllDigits(w + f) && DigitsValue(w + f) == pesos * 100 + cents
  {
    DigitsAppend(w, f);
    assert Pow10(2) == 100;
  }

  /** The digits written for a non-negative amount denote that amount in cents. */
  lemma AmountDigitsValue(c: int)
    requires c >= 0
    ensures AllDigits(AmountDigits(c)) && DigitsValue(AmountDigits(c)) == c
  {
    AmountDigitsNonNegative(c);
    NatToStringDigits(c / 100);
    DigitsPair(NatToString(c / 100), c / 100, TwoDigits(c % 100), c % 100);
    DivModHundred(c);
  }

  lemma HundredthBelow(c: nat, m: nat)
    requires c < m * 100
    ensures c / 100 < m
  {
  }

  /** An amount below `10^15` cents needs at most fifteen characters. */
  lemma AmountDigitsWidth(c: int)
    requires 0 <= c < Pow10(AMOUNT_WIDTH)
    ensures |AmountDigits(c)| <= AMOUNT_WIDTH
  {
    AmountDigitsNonNegative(c);
    assert Pow10(AMOUNT_WIDTH) == Pow10(13) * 100;
    HundredthBelow(c, Pow10(13));
    NatToStringLength(c / 100, 13);
  }

  /** Non-negative amounts encode to digit text whose value, read with two implied decimals, is the amount. */
  lemma EncodeNonNegative(c: int, width: int)
    requires c >= 0
    ensures FormatNumberValue(Cents(c), width).Some?
    ensures var r := FormatNumberValue(Cents(c), width).value;
            AllDigits(r) && DigitsValue(r) == c
  {
    AmountDigitsValue(c);
    PadLeftValue(AmountDigits(c), width);
  }

  /**
   * Every non-negative amount below `10^15` cents encodes to fifteen digits
   * that decode back to it.
   */
  lemma EncodeDecodeRoundTrip(c: int)
    requires 0 <= c < Pow10(AMOUNT_WIDTH)
    ensures FormatValue(Cents(c)).Some?
    ensures var raw := FormatValue(Cents(c)).value;
            |raw| == AMOUNT_WIDTH && AllDigits(raw) && DigitsValue(raw) == c
            && FormatFieldValue(raw, 2) == CentsText(c)
  {
    AmountDigitsWidth(c);
    EncodeNonNegative(c, AMOUNT_WIDTH);
    DecodeAmountField(FormatValue(Cents(c)).value);
  }

  /**
   * Two examples at the legacy width: `math.modf` keeps the sign on the whole
   * part only, so -5 cents loses its sign and -123.45 keeps it after the
   * padding zeros.
   */
  lemma NegativeEncoding()
    ensures FormatValue(Cents(-5)) == Some("000000000000005")
    ensures FormatValue(Cents(-12345)) == Some("000000000-12345")
  {
    NegativeCentsOnly();
    NegativePesos();
  }

  /** A negative amount of less than one peso encodes as its absolute value: the sign is lost. */
  lemma NegativeBelowOnePeso(c: int, w: int)
    requires -100 < c < 0
    ensures FormatNumberValue(Cents(c), w) == FormatNumberValue(Cents(-c), w)
  {
    assert WholePesos(c) == 0 && WholePesos(-c) == 0;
    assert Abs(c) == Abs(-c);
  }

  /**
   * From one peso in magnitude the sign is kept: the text is '-' and the
   * digits of the absolute value, zero-padded on the left, so the '-'
   * follows the padding zeros and comes first only when nothing is padded.
   */
  lemma NegativeKeepsSign(c: int, w: int)
    requires c <= -100
    ensures FormatNumberValue(Cents(c), w) == Some(PadLeft("-" + AmountDigits(-c), w))
    ensures var r := FormatNumberValue(Cents(c), w).value;
            var pad := |r| - |AmountDigits(-c)| - 1;
            r[pad] == '-' && (forall k :: 0 <= k < pad ==> r[k] == '0') && (pad == 0 <==> |AmountDigits(-c)| + 1 >= w)
  {
    var k := Abs(c) / 100;
    assert WholePesos(c) == -k && WholePesos(-c) == k && k > 0;
    assert IntToString(-k) == "-" + IntToString(k);
    assert Abs(c) == Abs(-c);
    assert AmountDigits(c) == "-" + AmountDigits(-c);
  }

  lemma NegativeCentsOnly()
    ensures FormatValue(Cents(-5)) == Some("000000000000005")
  {
    var small := AmountDigits(-5);
    assert WholePesos(-5) == 0 && Abs(-5) % 100 == 5;
    assert TwoDigits(5) == "05";
    assert small == "005";
    assert PadLeft(small, 15) == Zeros(12) + small;
    assert Zeros(12) + "005" == "000000000000005";
  }

  lemma NegativePesos()
    ensures FormatValue(Cents(-12345)) == Some("000000000-12345")
  {
    var large := AmountDigits(-12345);
    assert WholePesos(-12345) == -123 && Abs(-12345) % 100 == 45;
    assert NatToString(1) == "1";
    assert NatToString(12) == "12";
    assert NatToString(123) == "123";
    assert TwoDigits(45) == "45";
    assert large == "-12345";
    assert PadLeft(large, 15) == Zeros(9) + large;
    assert Zeros(9) + "-12345" == "000000000-12345";
  }
}
