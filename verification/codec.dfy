/**
 * The record codec: slicing a fixed-width line into its fields, the
 * implied-decimal formatting of amounts, leading-zero stripping of tax IDs,
 * and the legacy decoder with its carried decimal index.
 */
module Codec {
  import opened Wrappers
  import opened Failures
  import opened Text
  import opened Numerals
  import opened Layouts

  /** One decoded column: `{"field_name": ..., "value": ...}` under its field number. */
  datatype FieldValue = FieldValue(number: nat, name: string, value: string)

  /** No whitespace at either end, as `strip()` leaves it. */
  predicate IsTrimmed(s: string) {
    |s| > 0 ==> !IsSpace(s[0]) && !IsSpace(s[|s| - 1])
  }

  /**
   * `extract_field_value`: an inclusive span is a clamped slice; a single
   * position yields one character, or "" when it lies past the line.
   */
  function ExtractField(line: string, p: Positions): (r: string)
    ensures p.Span? && p.start <= p.end < |line| ==> r == line[p.start..p.end + 1] && |r| == p.end - p.start + 1
    ensures p.Span? && p.start >= |line| ==> r == []
    ensures p.At? && p.index < |line| ==> r == [line[p.index]]
    ensures p.At? && p.index >= |line| ==> r == []
  {
    match p
    case Span(s, e) => Slice(line, s, e + 1)
    case At(i) => if i < |line| then [line[i]] else []
  }

  /** Where `value[:-n]` ends and `value[-n:]` starts, for text of length `len`. */
  function DecimalCut(len: nat, n: nat): (cut: nat)
    ensures cut <= len
    ensures n > 0 && len > n ==> cut == len - n
    ensures n == 0 || len <= n ==> cut == 0
  {
    if n == 0 || len <= n then 0 else len - n
  }

  /**
   * `format_field_value(value, n)`: on the stripped text, `int` of everything
   * but the last `n` characters, a point, then those characters verbatim.
   * When that `int` fails the stripped text comes back unchanged.
   */
  function FormatFieldValue(value: string, n: nat): (r: string)
    ensures var t := Strip(value);
      && (|t| <= n ==> r == t)
      && (n > 0 && |t| > n && AllDigits(t) ==> r == NatToString(DigitsValue(t[..|t| - n])) + "." + t[|t| - n..])
      && (n > 0 && |t| > n && ParseInt(t[..|t| - n]).Some? ==> r == IntToString(ParseInt(t[..|t| - n]).value) + "." + t[|t| - n..])
      && (n > 0 && |t| > n && ParseInt(t[..|t| - n]).None? ==> r == t)
  {
    FormatStripped(Strip(value), n)
  }

  /** The same formatting on text whose surrounding whitespace is already gone. */
  function FormatStripped(t: string, n: nat): (r: string)
    ensures && (|t| <= n ==> r == t)
            && (n > 0 && |t| > n && AllDigits(t) ==> r == NatToString(DigitsValue(t[..|t| - n])) + "." + t[|t| - n..])
            && (n > 0 && |t| > n && ParseInt(t[..|t| - n]).Some? ==> r == IntToString(ParseInt(t[..|t| - n]).value) + "." + t[|t| - n..])
            && (n > 0 && |t| > n && ParseInt(t[..|t| - n]).None? ==> r == t)
  {
    var cut := DecimalCut(|t|, n);
    var ip := t[..cut];
    DecimalCutReads(t, n);
    match ParseInt(ip)
    case Some(i) => IntToString(i) + "." + t[cut..]
    case None => t
  }

  /**
   * What `int()` makes of `value[:-n]`: nothing when the cut leaves no text,
   * and the number spelled when the text is all digits.
   */
  lemma DecimalCutReads(t: string, n: nat)
    ensures DecimalCut(|t|, n) == 0 ==> ParseInt(t[..DecimalCut(|t|, n)]) == None
    ensures n > 0 && |t| > n && AllDigits(t) ==>
              AllDigits(t[..|t| - n]) && ParseInt(t[..|t| - n]) == Some(DigitsValue(t[..|t| - n]))
  {
    if DecimalCut(|t|, n) == 0 {
      assert t[..0] == "";
      EmptyNotInteger();
    }
    if n > 0 && |t| > n && AllDigits(t) {
      var p := t[..|t| - n];
      assert AllDigits(p);
      DigitsParse(p);
    }
  }

  /** How an observation text changes a raw value in the current decoder, before the final strip. */
  function FormatByObservation(raw: string, observations: Option<string>, zeroPadText: string): string
  {
    match observations
    case Some(o) =>
      if o == [] then raw
      else if o == MONEY_TEXT then FormatFieldValue(raw, 2)
      else if o == RATE_TEXT then FormatFieldValue(raw, 6)
      else if o == zeroPadText then StripLeading(raw, '0')
      else raw
    case None => raw
  }

  function DecodeField(line: string, f: FieldDef, zeroPadText: string): FieldValue
  {
    var raw := ExtractField(line, f.positions);
    FieldValue(f.number, f.name, Strip(FormatByObservation(raw, f.observations, zeroPadText)))
  }

  /**
   * `extract_values_from_string` with the zero-stripping observation text as
   * a parameter: the current decoder uses "Completar con ceros a la
   * izquierda", the legacy one behaves as if it were "... a izquierda".
   */
  function DecodeWith(line: string, layout: Layout, zeroPadText: string): seq<FieldValue>
  {
    seq(|layout|, i requires 0 <= i < |layout| => DecodeField(line, layout[i], zeroPadText))
  }

  lemma DecodeShape(line: string, layout: Layout, zeroPadText: string)
    ensures var r := DecodeWith(line, layout, zeroPadText);
      && |r| == |layout|
      && (forall i :: 0 <= i < |r| ==> r[i].number == layout[i].number && r[i].name == layout[i].name)
      && (forall i :: 0 <= i < |r| ==> IsTrimmed(r[i].value))
  {
  }

  /**
   * `extract_values_from_string`: one entry per layout field, in layout
   * order, carrying the field's number and name and a stripped value.
   */
  function ExtractValues(line: string, layout: Layout): (r: seq<FieldValue>)
    ensures |r| == |layout|
    ensures forall i :: 0 <= i < |r| ==> r[i].number == layout[i].number && r[i].name == layout[i].name
    ensures forall i :: 0 <= i < |r| ==> IsTrimmed(r[i].value)
  {
    DecodeShape(line, layout, ZERO_PAD_TEXT);
    DecodeWith(line, layout, ZERO_PAD_TEXT)
  }

  /**
   * `fields[number]["value"]` on the decoded dictionary: a later entry with
   * the same number overwrites an earlier one, so the last one wins.
   */
  function ValueOf(fields: seq<FieldValue>, number: nat): (r: Option<string>)
    ensures r.None? <==> forall i :: 0 <= i < |fields| ==> fields[i].number != number
    ensures r.Some? ==> exists i :: 0 <= i < |fields| && fields[i].number == number && fields[i].value == r.value
    ensures r.Some? ==> fields[|fields| - 1].number == number ==> r.value == fields[|fields| - 1].value
  {
    if |fields| == 0 then None
    else if fields[|fields| - 1].number == number then Some(fields[|fields| - 1].value)
    else
      var r := ValueOf(fields[..|fields| - 1], number);
      assert forall i :: 0 <= i < |fields| - 1 ==> fields[..|fields| - 1][i] == fields[i];
      r
  }

  /** With field numbers 1 .. n by position, field `k` is found at index `k - 1`. */
  lemma {:induction false} NumberedValueOf(fields: seq<FieldValue>, k: nat)
    requires forall i :: 0 <= i < |fields| ==> fields[i].number == i + 1
    requires 0 < k <= |fields|
    ensures ValueOf(fields, k) == Some(fields[k - 1].value)
    decreases |fields|
  {
    if fields[|fields| - 1].number != k {
      var init := fields[..|fields| - 1];
      assert forall i :: 0 <= i < |init| ==> init[i] == fields[i];
      NumberedValueOf(init, k);
    }
  }

  lemma DecodeAt(line: string, layout: Layout, zeroPadText: string, i: nat)
    requires i < |layout|
    ensures DecodeWith(line, layout, zeroPadText)[i] == DecodeField(line, layout[i], zeroPadText)
  {
  }

  lemma DecodedNumbering(line: string, layout: Layout, width: nat, zeroPadText: string, k: nat)
    requires Tiles(layout, width) && 0 < k <= |layout|
    ensures ValueOf(DecodeWith(line, layout, zeroPadText), k) == Some(DecodeWith(line, layout, zeroPadText)[k - 1].value)
  {
    TilesNumbers(layout, width);
    DecodeShape(line, layout, zeroPadText);
    NumberedValueOf(DecodeWith(line, layout, zeroPadText), k);
  }

  /** In a line decoded with a tiling layout, field `k` holds the value decoded at position `k - 1`. */
  lemma DecodedValueOf(line: string, layout: Layout, width: nat, zeroPadText: string, k: nat)
    requires Tiles(layout, width) && 0 < k <= |layout|
    ensures ValueOf(DecodeWith(line, layout, zeroPadText), k) == Some(DecodeField(line, layout[k - 1], zeroPadText).value)
  {
    DecodedNumbering(line, layout, width, zeroPadText, k);
    DecodeAt(line, layout, zeroPadText, k - 1);
  }

  /** The raw slices of the fields from index `i` on, concatenated. */
  function RawFrom(line: string, layout: Layout, i: nat): string
    requires i <= |layout|
    decreases |layout| - i
  {
    if i == |layout| then [] else ExtractField(line, layout[i].positions) + RawFrom(line, layout, i + 1)
  }

  lemma {:induction false} TilesBound(layout: Layout, i: nat, pos: nat, width: nat)
    requires i <= |layout| && TilesAt(layout, i, pos, width)
    ensures pos <= width
    decreases |layout| - i
  {
    if i < |layout| {
      TilesBound(layout, i + 1, End(layout[i].positions) + 1, width);
    }
  }

  lemma {:induction false} ReassembleFrom(line: string, layout: Layout, i: nat, pos: nat)
    requires i <= |layout| && TilesAt(layout, i, pos, |line|)
    ensures pos <= |line| && RawFrom(line, layout, i) == line[pos..]
    decreases |layout| - i
  {
    TilesBound(layout, i, pos, |line|);
    if i < |layout| {
      var p := layout[i].positions;
      var next := End(p) + 1;
      ReassembleFrom(line, layout, i + 1, next);
      FieldSlice(line, p, pos);
      SplitAt(line, pos, next);
    }
  }

  lemma FieldSlice(line: string, p: Positions, pos: nat)
    requires Start(p) == pos <= End(p) < |line|
    ensures ExtractField(line, p) == line[pos..End(p) + 1]
  {
  }

  lemma SplitAt(s: string, a: nat, b: nat)
    requires a <= b <= |s|
    ensures s[a..] == s[a..b] + s[b..]
  {
  }

  /**
   * A layout that tiles the line's width slices it without gaps or overlaps:
   * the raw fields, concatenated in order, are the line itself.
   */
  lemma LineReassembles(line: string, layout: Layout)
    requires Tiles(layout, |line|)
    ensures RawFrom(line, layout, 0) == line
  {
    ReassembleFrom(line, layout, 0, 0);
  }

  /**
   * Under any observation other than the two amount formats, the current
   * decoder strips leading zeros exactly when the text is its zero-pad text.
   */
  lemma ZeroStripOnlyExactText(line: string, f: FieldDef, zeroPadText: string)
    requires f.observations.Some? && f.observations.value != []
    requires f.observations.value != MONEY_TEXT && f.observations.value != RATE_TEXT
    ensures var raw := ExtractField(line, f.positions);
      DecodeField(line, f, zeroPadText).value
        == if f.observations.value == zeroPadText then Strip(StripLeading(raw, '0')) else Strip(raw)
  {
  }

  /**
   * The current decoder's zero-pad text is the invoice books' spelling: the
   * purchase breakdown book's tax-ID field keeps its leading zeros.
   */
  lemma ZeroStripByBook(line: string)
    ensures DecodeField(line, ComprasAlicuota[4], ZERO_PAD_TEXT).value == Strip(ExtractField(line, ComprasAlicuota[4].positions))
    ensures DecodeField(line, VentasCbte[DOCUMENT_FIELD - 1], ZERO_PAD_TEXT).value
         == Strip(StripLeading(ExtractField(line, VentasCbte[DOCUMENT_FIELD - 1].positions), '0'))
    ensures DecodeField(line, ComprasCbte[DOCUMENT_FIELD - 1], ZERO_PAD_TEXT).value
         == Strip(StripLeading(ExtractField(line, ComprasCbte[DOCUMENT_FIELD - 1].positions), '0'))
  {
    ZeroPadTexts();
    ObservationTextsDiffer();
    ZeroStripOnlyExactText(line, ComprasAlicuota[4], ZERO_PAD_TEXT);
    ZeroStripOnlyExactText(line, VentasCbte[DOCUMENT_FIELD - 1], ZERO_PAD_TEXT);
    ZeroStripOnlyExactText(line, ComprasCbte[DOCUMENT_FIELD - 1], ZERO_PAD_TEXT);
  }

  lemma ObservationTextsDiffer()
    ensures ZERO_PAD_SHORT_TEXT != MONEY_TEXT && ZERO_PAD_SHORT_TEXT != RATE_TEXT && ZERO_PAD_SHORT_TEXT != []
    ensures ZERO_PAD_TEXT != MONEY_TEXT && ZERO_PAD_TEXT != RATE_TEXT && ZERO_PAD_TEXT != []
    ensures MONEY_TEXT != RATE_TEXT
  {
    assert ZERO_PAD_SHORT_TEXT[0] != MONEY_TEXT[0] && ZERO_PAD_SHORT_TEXT[0] != RATE_TEXT[0];
    assert ZERO_PAD_TEXT[0] != MONEY_TEXT[0] && ZERO_PAD_TEXT[0] != RATE_TEXT[0];
    assert MONEY_TEXT[0] != RATE_TEXT[0];
  }

  // ---------------------------------------------------------------------
  // The legacy decoder

  /** The legacy `decimal_index` local between fields: never assigned, `None`, or a number of places. */
  datatype Carry = Unbound | NoDecimal | Decimal(places: nat)

  /** `extract_value_by_positions`: a single position past the line is an IndexError. */
  function LegacyExtract(line: string, p: Positions): (r: Result<string, Failure>)
    ensures r.Ok? ==> r.value == ExtractField(line, p)
    ensures r.Err? <==> p.At? && p.index >= |line|
  {
    match p
    case Span(s, e) => Ok(Slice(line, s, e + 1))
    case At(i) => if i < |line| then Ok([line[i]]) else Err(PositionOutOfRange(i))
  }

  /** `format_value_by_observation`: the same formatting, but a failed `int` raises. */
  function LegacyFormat(value: string, n: nat): (r: Result<string, Failure>)
    ensures r.Ok? ==> r.value == FormatFieldValue(value, n)
    ensures r.Err? <==> ParseInt(Strip(value)[..DecimalCut(|Strip(value)|, n)]).None?
  {
    var t := Strip(value);
    var cut := DecimalCut(|t|, n);
    match ParseInt(t[..cut])
    case Some(i) => Ok(IntToString(i) + "." + t[cut..])
    case None => Err(NotANumber(t[..cut]))
  }

  /** The `match` on a non-empty observation text: which value `decimal_index` holds afterwards. */
  function NextCarry(observations: Option<string>, carry: Carry): Carry
  {
    match observations
    case Some(o) =>
      if o == [] then carry
      else if o == MONEY_TEXT then Decimal(2)
      else if o == RATE_TEXT then Decimal(6)
      else if o == ZERO_PAD_SHORT_TEXT then carry
      else NoDecimal
    case None => carry
  }

  /** One field of the legacy `extract_values_from_string`, with the decimal index it leaves behind. */
  function LegacyDecodeField(line: string, f: FieldDef, carry: Carry): Result<(FieldValue, Carry), Failure>
  {
    var raw :- LegacyExtract(line, f.positions);
    var next := NextCarry(f.observations, carry);
    if f.observations.None? || f.observations.value == [] then
      Ok((FieldValue(f.number, f.name, Strip(raw)), next))
    else
      var o := f.observations.value;
      var v := if o != MONEY_TEXT && o != RATE_TEXT && o == ZERO_PAD_SHORT_TEXT then StripLeading(raw, '0') else raw;
      match next
      case Unbound => Err(UnboundDecimalIndex)
      case NoDecimal => Ok((FieldValue(f.number, f.name, Strip(v)), next))
      case Decimal(n) =>
        var formatted :- LegacyFormat(v, n);
        Ok((FieldValue(f.number, f.name, Strip(formatted)), next))
  }

  function LegacyDecodeFrom(line: string, layout: Layout, i: nat, carry: Carry): Result<seq<FieldValue>, Failure>
    requires i <= |layout|
    decreases |layout| - i
  {
    if i == |layout| then Ok([])
    else
      var (fv, next) :- LegacyDecodeField(line, layout[i], carry);
      var rest :- LegacyDecodeFrom(line, layout, i + 1, next);
      Ok([fv] + rest)
  }

  /** The legacy `extract_values_from_string`: `decimal_index` starts unassigned and is carried from field to field. */
  function LegacyDecode(line: string, layout: Layout): Result<seq<FieldValue>, Failure>
  {
    LegacyDecodeFrom(line, layout, 0, Unbound)
  }

  /**
   * Every field observed as "Completar con ceros a izquierda" is reached with
   * `decimal_index` holding `None`, so the carried value is never used.
   */
  predicate CarrySafeFrom(layout: Layout, i: nat, carry: Carry)
    requires i <= |layout|
    decreases |layout| - i
  {
    i == |layout| ||
    (&& (HasObservation(layout[i], ZERO_PAD_SHORT_TEXT) ==> carry == NoDecimal)
     && CarrySafeFrom(layout, i + 1, NextCarry(layout[i].observations, carry)))
  }

  /** One field: the legacy step, when it succeeds, decodes as the current decoder with the short zero-pad text. */
  lemma LegacyFieldAgrees(line: string, f: FieldDef, carry: Carry)
    requires HasObservation(f, ZERO_PAD_SHORT_TEXT) ==> carry == NoDecimal
    requires LegacyDecodeField(line, f, carry).Ok?
    ensures LegacyDecodeField(line, f, carry).value == (DecodeField(line, f, ZERO_PAD_SHORT_TEXT), NextCarry(f.observations, carry))
  {
    ObservationTextsDiffer();
    if f.observations.Some? && f.observations.value == MONEY_TEXT {
      LegacyAmountAgrees(line, f, carry, 2);
    } else if f.observations.Some? && f.observations.value == RATE_TEXT {
      LegacyAmountAgrees(line, f, carry, 6);
    } else {
      LegacyTextAgrees(line, f, carry);
    }
  }

  /** An amount field: the legacy formatting, when it succeeds, is the current one. */
  lemma LegacyAmountAgrees(line: string, f: FieldDef, carry: Carry, n: nat)
    requires (f.observations == Some(MONEY_TEXT) && n == 2) || (f.observations == Some(RATE_TEXT) && n == 6)
    requires LegacyDecodeField(line, f, carry).Ok?
    ensures LegacyDecodeField(line, f, carry).value == (DecodeField(line, f, ZERO_PAD_SHORT_TEXT), Decimal(n))
  {
    ObservationTextsDiffer();
    var raw := ExtractField(line, f.positions);
    assert LegacyExtract(line, f.positions) == Ok(raw);
    assert NextCarry(f.observations, carry) == Decimal(n);
    assert LegacyFormat(raw, n).Ok?;
  }

  /** Any other field: no formatting, and zeros stripped only under the short zero-pad text. */
  lemma LegacyTextAgrees(line: string, f: FieldDef, carry: Carry)
    requires f.observations != Some(MONEY_TEXT) && f.observations != Some(RATE_TEXT)
    requires HasObservation(f, ZERO_PAD_SHORT_TEXT) ==> carry == NoDecimal
    requires LegacyDecodeField(line, f, carry).Ok?
    ensures LegacyDecodeField(line, f, carry).value == (DecodeField(line, f, ZERO_PAD_SHORT_TEXT), NextCarry(f.observations, carry))
  {
    if f.observations.Some? && f.observations.value != [] {
      LegacyObservedTextAgrees(line, f, carry);
    } else {
      var raw := ExtractField(line, f.positions);
      assert LegacyExtract(line, f.positions) == Ok(raw);
    }
  }

  /** A field with an observation text other than the two amount texts. */
  lemma LegacyObservedTextAgrees(line: string, f: FieldDef, carry: Carry)
    requires f.observations.Some? && f.observations.value != []
    requires f.observations != Some(MONEY_TEXT) && f.observations != Some(RATE_TEXT)
    requires HasObservation(f, ZERO_PAD_SHORT_TEXT) ==> carry == NoDecimal
    requires LegacyDecodeField(line, f, carry).Ok?
    ensures LegacyDecodeField(line, f, carry).value == (DecodeField(line, f, ZERO_PAD_SHORT_TEXT), NextCarry(f.observations, carry))
  {
    ObservationTextsDiffer();
    var raw := ExtractField(line, f.positions);
    assert LegacyExtract(line, f.positions) == Ok(raw);
    var o := f.observations.value;
    if o == ZERO_PAD_SHORT_TEXT {
      assert NextCarry(f.observations, carry) == carry == NoDecimal;
      assert FormatByObservation(raw, f.observations, ZERO_PAD_SHORT_TEXT) == StripLeading(raw, '0');
    } else {
      assert NextCarry(f.observations, carry) == NoDecimal;
      assert FormatByObservation(raw, f.observations, ZERO_PAD_SHORT_TEXT) == raw;
    }
  }

  lemma {:induction false} LegacyAgreesFrom(line: string, layout: Layout, i: nat, carry: Carry)
    requires i <= |layout| && CarrySafeFrom(layout, i, carry)
    requires LegacyDecodeFrom(line, layout, i, carry).Ok?
    ensures LegacyDecodeFrom(line, layout, i, carry).value == DecodeWith(line, layout, ZERO_PAD_SHORT_TEXT)[i..]
    decreases |layout| - i
  {
    if i < |layout| {
      var step := LegacyDecodeField(line, layout[i], carry);
      assert step.Ok?;
      LegacyFieldAgrees(line, layout[i], carry);
      var next := step.value.1;
      var rest := LegacyDecodeFrom(line, layout, i + 1, next);
      assert rest.Ok?;
      assert LegacyDecodeFrom(line, layout, i, carry).value == [step.value.0] + rest.value;
      LegacyAgreesFrom(line, layout, i + 1, next);
      DecodeAt(line, layout, ZERO_PAD_SHORT_TEXT, i);
      SliceAtHead(DecodeWith(line, layout, ZERO_PAD_SHORT_TEXT), i);
    }
  }

  lemma SliceAtHead<T>(s: seq<T>, i: nat)
    requires i < |s|
    ensures s[i..] == [s[i]] + s[i + 1..]
  {
  }

  /**
   * Where the carried decimal index is harmless, a successful legacy decode
   * is the current decoder with "Completar con ceros a izquierda" as its
   * zero-stripping text.
   */
  lemma LegacyAgrees(line: string, layout: Layout)
    requires CarrySafeFrom(layout, 0, Unbound)
    requires LegacyDecode(line, layout).Ok?
    ensures LegacyDecode(line, layout).value == DecodeWith(line, layout, ZERO_PAD_SHORT_TEXT)
  {
    LegacyAgreesFrom(line, layout, 0, Unbound);
  }

  /** A zero-pad field before any other observed field meets an unassigned `decimal_index`. */
  lemma LegacyUnboundExample(c: char)
    ensures LegacyDecode([c], [FieldDef(1, "id", At(0), "Numérico", 1, Some(ZERO_PAD_SHORT_TEXT))]) == Err(UnboundDecimalIndex)
  {
    assert ZERO_PAD_SHORT_TEXT != MONEY_TEXT && ZERO_PAD_SHORT_TEXT != RATE_TEXT;
  }

  /** A blank amount is a ValueError in the legacy decoder and passes through as "" in the current one. */
  lemma BlankAmount(value: string, n: nat)
    requires forall k :: 0 <= k < |value| ==> IsSpace(value[k])
    ensures LegacyFormat(value, n).Err?
    ensures FormatFieldValue(value, n) == ""
  {
  }

  lemma VentasCbteCarrySafePart3()
    ensures CarrySafeFrom(VentasCbte, 15, Decimal(2))
  {
    ObservationTextsDiffer();
    assert CarrySafeFrom(VentasCbte, 22, NoDecimal);
    assert CarrySafeFrom(VentasCbte, 21, Decimal(2));
    assert CarrySafeFrom(VentasCbte, 20, NoDecimal);
    assert CarrySafeFrom(VentasCbte, 19, Decimal(6));
    assert CarrySafeFrom(VentasCbte, 18, Decimal(6));
    assert CarrySafeFrom(VentasCbte, 17, NoDecimal);
    assert CarrySafeFrom(VentasCbte, 16, Decimal(2));
  }

  lemma VentasCbteCarrySafePart2()
    ensures CarrySafeFrom(VentasCbte, 8, NoDecimal)
  {
    VentasCbteCarrySafePart3();
    ObservationTextsDiffer();
    assert CarrySafeFrom(VentasCbte, 14, Decimal(2));
    assert CarrySafeFrom(VentasCbte, 13, Decimal(2));
    assert CarrySafeFrom(VentasCbte, 12, Decimal(2));
    assert CarrySafeFrom(VentasCbte, 11, Decimal(2));
    assert CarrySafeFrom(VentasCbte, 10, Decimal(2));
    assert CarrySafeFrom(VentasCbte, 9, Decimal(2));
  }

  lemma VentasCbteCarrySafe()
    ensures CarrySafeFrom(VentasCbte, 0, Unbound)
  {
    VentasCbteCarrySafePart2();
    ObservationTextsDiffer();
    assert CarrySafeFrom(VentasCbte, 7, NoDecimal);
    assert CarrySafeFrom(VentasCbte, 6, NoDecimal);
    assert CarrySafeFrom(VentasCbte, 5, NoDecimal);
    assert CarrySafeFrom(VentasCbte, 4, NoDecimal);
    assert CarrySafeFrom(VentasCbte, 3, NoDecimal);
    assert CarrySafeFrom(VentasCbte, 2, NoDecimal);
    assert CarrySafeFrom(VentasCbte, 1, NoDecimal);
  }

  lemma VentasAlicuotaCarrySafe()
    ensures CarrySafeFrom(VentasAlicuota, 0, Unbound)
  {
    ObservationTextsDiffer();
    assert CarrySafeFrom(VentasAlicuota, 6, Decimal(2));
    assert CarrySafeFrom(VentasAlicuota, 5, NoDecimal);
    assert CarrySafeFrom(VentasAlicuota, 4, Decimal(2));
    assert CarrySafeFrom(VentasAlicuota, 3, NoDecimal);
    assert CarrySafeFrom(VentasAlicuota, 2, NoDecimal);
    assert CarrySafeFrom(VentasAlicuota, 1, NoDecimal);
  }

  lemma ComprasCbteCarrySafePart3()
    ensures CarrySafeFrom(ComprasCbte, 16, Decimal(2))
  {
    ObservationTextsDiffer();
    assert CarrySafeFrom(ComprasCbte, 25, Decimal(2));
    assert CarrySafeFrom(ComprasCbte, 24, Decimal(2));
    assert CarrySafeFrom(ComprasCbte, 23, Decimal(2));
    assert CarrySafeFrom(ComprasCbte, 22, Decimal(2));
    assert CarrySafeFrom(ComprasCbte, 21, Decimal(2));
    assert CarrySafeFrom(ComprasCbte, 20, NoDecimal);
    assert CarrySafeFrom(ComprasCbte, 19, Decimal(6));
    assert CarrySafeFrom(ComprasCbte, 18, Decimal(6));
    assert CarrySafeFrom(ComprasCbte, 17, NoDecimal);
  }

  lemma ComprasCbteCarrySafePart2()
    ensures CarrySafeFrom(ComprasCbte, 8, NoDecimal)
  {
    ComprasCbteCarrySafePart3();
    ObservationTextsDiffer();
    assert CarrySafeFrom(ComprasCbte, 15, Decimal(2));
    assert CarrySafeFrom(ComprasCbte, 14, Decimal(2));
    assert CarrySafeFrom(ComprasCbte, 13, Decimal(2));
    assert CarrySafeFrom(ComprasCbte, 12, Decimal(2));
    assert CarrySafeFrom(ComprasCbte, 11, Decimal(2));
    assert CarrySafeFrom(ComprasCbte, 10, Decimal(2));
    assert CarrySafeFrom(ComprasCbte, 9, Decimal(2));
  }

  lemma ComprasCbteCarrySafe()
    ensures CarrySafeFrom(ComprasCbte, 0, Unbound)
  {
    ComprasCbteCarrySafePart2();
    ObservationTextsDiffer();
    assert CarrySafeFrom(ComprasCbte, 7, NoDecimal);
    assert CarrySafeFrom(ComprasCbte, 6, NoDecimal);
    assert CarrySafeFrom(ComprasCbte, 5, NoDecimal);
    assert CarrySafeFrom(ComprasCbte, 4, NoDecimal);
    assert CarrySafeFrom(ComprasCbte, 3, NoDecimal);
    assert CarrySafeFrom(ComprasCbte, 2, NoDecimal);
    assert CarrySafeFrom(ComprasCbte, 1, NoDecimal);
  }

  lemma ComprasAlicuotaCarrySafe()
    ensures CarrySafeFrom(ComprasAlicuota, 0, Unbound)
  {
    ObservationTextsDiffer();
    assert CarrySafeFrom(ComprasAlicuota, 8, Decimal(2));
    assert CarrySafeFrom(ComprasAlicuota, 7, NoDecimal);
    assert CarrySafeFrom(ComprasAlicuota, 6, Decimal(2));
    assert CarrySafeFrom(ComprasAlicuota, 5, NoDecimal);
    assert CarrySafeFrom(ComprasAlicuota, 4, NoDecimal);
    assert CarrySafeFrom(ComprasAlicuota, 3, NoDecimal);
    assert CarrySafeFrom(ComprasAlicuota, 2, NoDecimal);
    assert CarrySafeFrom(ComprasAlicuota, 1, NoDecimal);
  }

  /**
   * On every registered layout the carried decimal index is harmless, so a
   * successful legacy decode is the current decoder with the legacy
   * zero-pad text.
   */
  lemma RegistryLegacyAgrees(name: string, line: string)
    requires IsBookName(name)
    requires LegacyDecode(line, GetBookStructure(name).value).Ok?
    ensures LegacyDecode(line, GetBookStructure(name).value).value == DecodeWith(line, GetBookStructure(name).value, ZERO_PAD_SHORT_TEXT)
  {
    if name == VENTAS_CBTE {
      VentasCbteCarrySafe();
    } else if name == VENTAS_ALICUOTA {
      VentasAlicuotaCarrySafe();
    } else if name == COMPRAS_CBTE {
      ComprasCbteCarrySafe();
    } else {
      ComprasAlicuotaCarrySafe();
    }
    LegacyAgrees(line, GetBookStructure(name).value);
  }

  /**
   * The legacy zero-pad text is the purchase breakdown book's spelling: the
   * legacy decoder strips that book's tax-ID zeros and keeps the invoice
   * books' ones, the reverse of the current decoder.
   */
  lemma LegacyZeroStripByBook(line: string)
    ensures DecodeField(line, ComprasAlicuota[4], ZERO_PAD_SHORT_TEXT).value
         == Strip(StripLeading(ExtractField(line, ComprasAlicuota[4].positions), '0'))
    ensures DecodeField(line, VentasCbte[DOCUMENT_FIELD - 1], ZERO_PAD_SHORT_TEXT).value
         == Strip(ExtractField(line, VentasCbte[DOCUMENT_FIELD - 1].positions))
    ensures DecodeField(line, ComprasCbte[DOCUMENT_FIELD - 1], ZERO_PAD_SHORT_TEXT).value
         == Strip(ExtractField(line, ComprasCbte[DOCUMENT_FIELD - 1].positions))
  {
    ZeroPadTexts();
    ObservationTextsDiffer();
    ZeroStripOnlyExactText(line, ComprasAlicuota[4], ZERO_PAD_SHORT_TEXT);
    ZeroStripOnlyExactText(line, VentasCbte[DOCUMENT_FIELD - 1], ZERO_PAD_SHORT_TEXT);
    ZeroStripOnlyExactText(line, ComprasCbte[DOCUMENT_FIELD - 1], ZERO_PAD_SHORT_TEXT);
  }
}
