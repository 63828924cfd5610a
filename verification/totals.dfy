/**
 * Per-line totals: the listed amount fields of a decoded line added up in
 * cents, with the summary the program attaches to the line's record.
 */
module Totals {
  import opened Wrappers
  import opened Failures
  import opened Text
  import opened Numerals
  import opened Layouts
  import opened Codec

  /** `data_dict["summed_amounts"]`: the fields that were added up and their total in cents. */
  datatype Summary = Summary(referencedFields: string, total: int)

  /** A processed line: its decoded fields and, once computed, their summary. */
  datatype Record = Record(fields: seq<FieldValue>, summary: Option<Summary>)

  /** What `float()` makes of one listed field: absent, an amount in cents, or rejected text. */
  datatype Reading = Absent(key: nat) | Amount(cents: int) | Rejected(text: string)

  function Read(fields: seq<FieldValue>, key: nat): (r: Reading)
    ensures r.Absent? <==> ValueOf(fields, key).None?
    ensures r.Absent? ==> r.key == key
    ensures r.Amount? ==> ParseCents(ValueOf(fields, key).value) == Some(r.cents)
    ensures r.Rejected? ==> ParseCents(ValueOf(fields, key).value).None? && r.text == ValueOf(fields, key).value
  {
    match ValueOf(fields, key)
    case None => Absent(key)
    case Some(v) =>
      match ParseCents(v)
      case Some(c) => Amount(c)
      case None => Rejected(v)
  }

  /** The listed fields of a line, read in the order of the key list. */
  function Readings(fields: seq<FieldValue>, keys: seq<nat>): (r: seq<Reading>)
    ensures |r| == |keys| && forall i :: 0 <= i < |keys| ==> r[i] == Read(fields, keys[i])
  {
    seq(|keys|, i requires 0 <= i < |keys| => Read(fields, keys[i]))
  }

  /**
   * The loop of `calculate_field_totals` over the readings: an absent field
   * is skipped, the first rejected one aborts the sum.
   */
  function Total(rs: seq<Reading>): (r: Result<int, Failure>)
    ensures r.Err? ==> r.error.NotANumber?
  {
    if |rs| == 0 then Ok(0)
    else
      match rs[0]
      case Rejected(text) => Err(NotANumber(text))
      case _ =>
        match Total(rs[1..])
        case Ok(rest) => Ok((if rs[0].Amount? then rs[0].cents else 0) + rest)
        case Err(e) => Err(e)
  }

  /**
   * The sum succeeds exactly when nothing is rejected; otherwise it reports
   * the first rejected text.
   */
  lemma {:induction false} TotalDefined(rs: seq<Reading>)
    ensures Total(rs).Ok? <==> forall i :: 0 <= i < |rs| ==> !rs[i].Rejected?
    ensures Total(rs).Err? ==> exists i :: 0 <= i < |rs| && rs[i].Rejected? && Total(rs).error == NotANumber(rs[i].text)
                                            && forall j :: 0 <= j < i ==> !rs[j].Rejected?
  {
    if |rs| > 0 && !rs[0].Rejected? {
      TotalDefined(rs[1..]);
      assert forall i :: 1 <= i < |rs| ==> rs[i] == rs[1..][i - 1];
      if Total(rs).Err? {
        var i :| 0 <= i < |rs| - 1 && rs[1..][i].Rejected? && Total(rs[1..]).error == NotANumber(rs[1..][i].text)
                 && forall j :: 0 <= j < i ==> !rs[1..][j].Rejected?;
        assert rs[i + 1] == rs[1..][i];
      }
    }
  }

  /** Summing two runs of readings one after the other adds the two sums. */
  lemma {:induction false} TotalAppend(a: seq<Reading>, b: seq<Reading>)
    requires Total(a + b).Ok?
    ensures Total(a).Ok? && Total(b).Ok?
    ensures Total(a + b).value == Total(a).value + Total(b).value
  {
    if |a| == 0 {
      assert a + b == b;
    } else {
      assert (a + b)[1..] == a[1..] + b;
      TotalAppend(a[1..], b);
    }
  }

  /** Absent fields add nothing: the sum is the sum over the readings that are present. */
  lemma {:induction false} AbsentSkipped(rs: seq<Reading>)
    ensures Total(rs) == Total(Present(rs))
  {
    if |rs| > 0 {
      AbsentSkipped(rs[1..]);
      var rest := Present(rs[1..]);
      if rs[0].Absent? {
        assert Present(rs) == rest;
        assert Total(rs) == Total(rs[1..]);
      } else {
        var p := [rs[0]] + rest;
        assert Present(rs) == p;
        assert p[0] == rs[0] && p[1..] == rest;
      }
    }
  }

  /** The readings that are not absent, in order. */
  function Present(rs: seq<Reading>): (r: seq<Reading>)
    ensures forall x :: x in r <==> x in rs && !x.Absent?
  {
    if |rs| == 0 then []
    else
      var rest := Present(rs[1..]);
      assert forall x :: x in rs <==> x == rs[0] || x in rs[1..];
      if rs[0].Absent? then rest else [rs[0]] + rest
  }

  /**
   * The legacy `calculate_total_values` over the readings: every listed key
   * is looked up directly, so an absent one is a KeyError.
   */
  function LegacyTotal(rs: seq<Reading>): (r: Result<int, Failure>)
    ensures r.Err? ==> r.error.NotANumber? || r.error.MissingField?
  {
    if |rs| == 0 then Ok(0)
    else
      match rs[0]
      case Absent(key) => Err(MissingField(key))
      case Rejected(text) => Err(NotANumber(text))
      case Amount(c) =>
        match LegacyTotal(rs[1..])
        case Ok(rest) => Ok(c + rest)
        case Err(e) => Err(e)
  }

  /** A legacy KeyError names a listed key that is absent, the first such one. */
  lemma {:induction false} LegacyMissingKey(rs: seq<Reading>)
    requires LegacyTotal(rs).Err? && LegacyTotal(rs).error.MissingField?
    ensures Absent(LegacyTotal(rs).error.number) in rs
  {
    if !rs[0].Absent? {
      LegacyMissingKey(rs[1..]);
    }
  }

  /** With nothing absent the two engines sum alike, errors included. */
  lemma {:induction false} LegacyTotalAgrees(rs: seq<Reading>)
    requires forall i :: 0 <= i < |rs| ==> !rs[i].Absent?
    ensures LegacyTotal(rs) == Total(rs)
  {
    if |rs| > 0 {
      assert forall i :: 1 <= i < |rs| ==> rs[i] == rs[1..][i - 1];
      LegacyTotalAgrees(rs[1..]);
    }
  }

  /** The cents a reading contributes: its amount, or nothing. */
  function CentsOf(x: Reading): int {
    if x.Amount? then x.cents else 0
  }

  /** The plain sum of the amounts among the readings, added up from the last one back. */
  function PlainSum(rs: seq<Reading>): int {
    if |rs| == 0 then 0 else PlainSum(rs[..|rs| - 1]) + CentsOf(rs[|rs| - 1])
  }

  /** When the loop's sum succeeds it is the plain sum of the amounts read. */
  lemma {:induction false} TotalIsPlainSum(rs: seq<Reading>)
    requires Total(rs).Ok?
    ensures Total(rs).value == PlainSum(rs)
  {
    if |rs| > 0 {
      var init, last := rs[..|rs| - 1], [rs[|rs| - 1]];
      assert init + last == rs;
      TotalAppend(init, last);
      TotalIsPlainSum(init);
      assert last[1..] == [];
    }
  }

  /** The legacy sum succeeds exactly when every listed field is present and a number, and is then the plain sum. */
  lemma {:induction false} LegacyTotalIsPlainSum(rs: seq<Reading>)
    ensures LegacyTotal(rs).Ok? <==> forall i :: 0 <= i < |rs| ==> rs[i].Amount?
    ensures LegacyTotal(rs).Ok? ==> Total(rs) == LegacyTotal(rs) && LegacyTotal(rs).value == PlainSum(rs)
  {
    if |rs| > 0 {
      assert forall i :: 1 <= i < |rs| ==> rs[i] == rs[1..][i - 1];
      LegacyTotalIsPlainSum(rs[1..]);
      if LegacyTotal(rs).Ok? {
        LegacyTotalAgrees(rs);
        TotalIsPlainSum(rs);
      }
    }
  }

  /** The amount the listed keys of a line add up to. */
  function SumListed(fields: seq<FieldValue>, keys: seq<nat>): Result<int, Failure>
  {
    Total(Readings(fields, keys))
  }

  /** Summing over two key lists one after the other adds the two sums. */
  lemma SumListedAppend(fields: seq<FieldValue>, a: seq<nat>, b: seq<nat>)
    requires SumListed(fields, a + b).Ok?
    ensures SumListed(fields, a).Ok? && SumListed(fields, b).Ok?
    ensures SumListed(fields, a + b).value == SumListed(fields, a).value + SumListed(fields, b).value
  {
    assert Readings(fields, a + b) == Readings(fields, a) + Readings(fields, b);
    TotalAppend(Readings(fields, a), Readings(fields, b));
  }

  /** The legacy sum over the listed keys of a line. */
  function LegacySum(fields: seq<FieldValue>, keys: seq<nat>): Result<int, Failure>
  {
    LegacyTotal(Readings(fields, keys))
  }

  /** `", ".join(map(str, keys))`. */
  function JoinKeys(keys: seq<nat>): (r: string)
    ensures r == "" <==> |keys| == 0
    ensures |keys| == 1 ==> r == NatToString(keys[0])
    ensures r != "" ==> IsDigit(r[0]) && IsDigit(r[|r| - 1])
  {
    if |keys| == 0 then ""
    else if |keys| == 1 then
      NatToStringDigits(keys[0]);
      NatToString(keys[0])
    else
      var init := JoinKeys(keys[..|keys| - 1]);
      var last := NatToString(keys[|keys| - 1]);
      NatToStringDigits(keys[|keys| - 1]);
      assert (init + ", " + last)[0] == init[0];
      init + ", " + last
  }

  /** Joining two non-empty key lists puts one separator between their joins. */
  lemma {:induction false} JoinKeysAppend(a: seq<nat>, b: seq<nat>)
    requires |a| > 0 && |b| > 0
    ensures JoinKeys(a + b) == JoinKeys(a) + ", " + JoinKeys(b)
    decreases |b|
  {
    var ab := a + b;
    if |b| == 1 {
      assert ab[..|ab| - 1] == a;
    } else {
      var b' := b[..|b| - 1];
      assert ab[..|ab| - 1] == a + b';
      JoinKeysAppend(a, b');
    }
  }

  /** `referenced_fields`: the joined keys, whose final `strip()` removes nothing. */
  function ReferencedFields(keys: seq<nat>): (r: string)
    ensures r == JoinKeys(keys)
  {
    var joined := JoinKeys(keys);
    if joined != "" then
      assert !IsSpace(joined[0]) && !IsSpace(joined[|joined| - 1]);
      Strip(joined)
    else Strip(joined)
  }

  /**
   * `calculate_field_totals`: the decoded fields, untouched, with the
   * summary of the listed keys attached. The total is the plain sum of the
   * listed fields that are present; it fails on the first listed text that
   * is not a number.
   */
  function CalculateFieldTotals(fields: seq<FieldValue>, keys: seq<nat>): (r: Result<Record, Failure>)
    ensures r.Ok? <==> forall i :: 0 <= i < |keys| ==> !Read(fields, keys[i]).Rejected?
    ensures r.Ok? ==> r.value.fields == fields && r.value.summary.Some?
    ensures r.Ok? ==> r.value.summary.value.referencedFields == JoinKeys(keys)
    ensures r.Ok? ==> r.value.summary.value.total == PlainSum(Readings(fields, keys))
    ensures r.Err? ==> exists i :: 0 <= i < |keys| && Read(fields, keys[i]).Rejected?
                                   && r.error == NotANumber(Read(fields, keys[i]).text)
                                   && forall j :: 0 <= j < i ==> !Read(fields, keys[j]).Rejected?
  {
    var rs := Readings(fields, keys);
    TotalDefined(rs);
    if Total(rs).Ok? then
      TotalIsPlainSum(rs);
      Ok(Record(fields, Some(Summary(ReferencedFields(keys), Total(rs).value))))
    else Err(Total(rs).error)
  }

  /**
   * The legacy `calculate_total_values`: the same record, but every listed
   * key must be present, or the KeyError is raised.
   */
  function LegacyCalculateTotals(fields: seq<FieldValue>, keys: seq<nat>): (r: Result<Record, Failure>)
    ensures r.Ok? <==> forall i :: 0 <= i < |keys| ==> Read(fields, keys[i]).Amount?
    ensures r.Ok? ==> r.value.fields == fields && r.value.summary.Some?
    ensures r.Ok? ==> r.value.summary.value.referencedFields == JoinKeys(keys)
    ensures r.Ok? ==> r.value.summary.value.total == PlainSum(Readings(fields, keys))
    ensures r.Err? ==> r.error.NotANumber? || r.error.MissingField?
    ensures r.Err? && r.error.MissingField? ==> r.error.number in keys && ValueOf(fields, r.error.number).None?
  {
    var rs := Readings(fields, keys);
    LegacyTotalIsPlainSum(rs);
    match LegacyTotal(rs)
    case Ok(total) => Ok(Record(fields, Some(Summary(ReferencedFields(keys), total))))
    case Err(e) =>
      if e.MissingField? then
        LegacyMissingKey(rs);
        Err(e)
      else Err(e)
  }

  /**
   * A line decoded with a registered layout has every field, so the legacy
   * KeyError never fires and both engines compute the same record.
   */
  lemma RegistryTotalsAgree(name: string, line: string, zeroPadText: string)
    requires IsBookName(name)
    ensures GetBookStructure(name).Ok?
    ensures var fields := DecodeWith(line, GetBookStructure(name).value, zeroPadText);
            LegacyCalculateTotals(fields, RetrieveKeysToSum(name)) == CalculateFieldTotals(fields, RetrieveKeysToSum(name))
  {
    RegistryWellFormed(name);
    var layout := GetBookStructure(name).value;
    var keys := RetrieveKeysToSum(name);
    var fields := DecodeWith(line, layout, zeroPadText);
    forall i | 0 <= i < |keys|
      ensures ValueOf(fields, keys[i]).Some?
    {
      assert keys[i] in keys;
      DecodedValueOf(line, layout, GetBookLength(name), zeroPadText, keys[i]);
    }
    LegacyTotalAgrees(Readings(fields, keys));
  }
}
