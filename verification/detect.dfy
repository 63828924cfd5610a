/**
 * Finding the merged lines whose declared total (field 9 of one book) differs
 * from the computed total by more than the threshold.
 */
module Detect {
  import opened Wrappers
  import opened Failures
  import opened Numerals
  import opened Layouts
  import opened Codec
  import opened Totals
  import opened Books
  import opened Merge

  /** `(line, total_summed_amount, field_value)`: a line whose declared total disagrees. */
  datatype Difference<K> = Difference(line: K, computed: int, declared: int)

  /** The default threshold, one peso, in cents. */
  const ONE_PESO: int := 100

  /** `get_difference` / `compute_difference`: the absolute difference. */
  function Distance(a: int, b: int): (d: nat)
    ensures d == a - b || d == b - a
  {
    if a >= b then a - b else b - a
  }

  /** `check_difference_exceeds_threshold` / `is_difference_significant`. */
  predicate IsDifferenceSignificant(a: int, b: int, threshold: int) {
    Distance(a, b) > threshold
  }

  /** The test is symmetric, and with the default threshold one peso apart is tolerated, one cent more is not. */
  lemma SignificanceBoundary(a: int, b: int, threshold: int)
    ensures IsDifferenceSignificant(a, b, threshold) <==> IsDifferenceSignificant(b, a, threshold)
    ensures !IsDifferenceSignificant(a, a + ONE_PESO, ONE_PESO)
    ensures IsDifferenceSignificant(a, a + ONE_PESO + 1, ONE_PESO)
  {
  }

  // ---------------------------------------------------------------------
  // What the scan sees of one merged line

  /**
   * One merged line as the scan reads it for a book: the key, the total
   * (`.get("total_summed_amount", 0)`) and, when the line has the book, the
   * reading of the compared field.
   */
  datatype LineView = LineView(key: string, total: int, declared: Option<Reading>)

  function View(e: Entry, book: string, field: nat): LineView {
    LineView(e.key, e.total.GetOr(0),
             if book in e.books then Some(Read(e.books[book].fields, field)) else None)
  }

  function Views(m: Merged, book: string, field: nat): (vs: seq<LineView>)
    ensures |vs| == |m| && forall i :: 0 <= i < |m| ==> vs[i] == View(m[i], book, field)
  {
    seq(|m|, i requires 0 <= i < |m| => View(m[i], book, field))
  }

  /** `float(field_data.get("value", 0))` in cents: a missing field reads as 0. */
  function DeclaredCents(r: Reading): int {
    match r
    case Amount(c) => c
    case _ => 0
  }

  /**
   * The verdict on one line: no difference, a difference, or the ValueError
   * that stops the scan. A line without the book is passed over.
   */
  function Compare(v: LineView, threshold: int): (r: Result<Option<Difference<string>>, Failure>)
    ensures r.Err? <==> v.declared.Some? && v.declared.value.Rejected?
    ensures r.Err? ==> r.error == NotANumber(v.declared.value.text)
    ensures r.Ok? && r.value.Some? ==>
              v.declared.Some? && r.value.value == Difference(v.key, v.total, DeclaredCents(v.declared.value))
    ensures threshold >= 0 ==>
              (r.Ok? && r.value.Some? <==>
               v.declared.Some? && !v.declared.value.Rejected?
               && IsDifferenceSignificant(v.total, DeclaredCents(v.declared.value), threshold))
  {
    match v.declared
    case None => Ok(None)
    case Some(Rejected(text)) => Err(NotANumber(text))
    case Some(reading) =>
      var declared := DeclaredCents(reading);
      if v.total != declared && IsDifferenceSignificant(v.total, declared, threshold) then
        Ok(Some(Difference(v.key, v.total, declared)))
      else Ok(None)
  }

  /**
   * The legacy verdict: with no guard on the book's presence, a line without
   * the book subtracts None and raises a TypeError.
   */
  function LegacyCompare(v: LineView, threshold: int): (r: Result<Option<Difference<string>>, Failure>)
    ensures v.declared.None? ==> r == Err(MissingBook)
    ensures v.declared.Some? ==> r == Compare(v, threshold)
  {
    match v.declared
    case None => Err(MissingBook)
    case Some(_) => Compare(v, threshold)
  }

  /** `int(key)` on a flagged line; a key that is not a number raises a ValueError. */
  function NumberKey(r: Result<Option<Difference<string>>, Failure>): Result<Option<Difference<int>>, Failure> {
    match r
    case Err(e) => Err(e)
    case Ok(None) => Ok(None)
    case Ok(Some(d)) =>
      match ParseInt(d.line)
      case Some(n) => Ok(Some(Difference(n, d.computed, d.declared)))
      case None => Err(NotANumber(d.line))
  }

  // ---------------------------------------------------------------------
  // The scan

  /** The loop over the merged lines: the first error stops it, flagged lines are kept in order. */
  function Collect<T>(rs: seq<Result<Option<T>, Failure>>): Result<seq<T>, Failure>
    decreases |rs|
  {
    if |rs| == 0 then Ok([])
    else
      match rs[0]
      case Err(e) => Err(e)
      case Ok(here) =>
        match Collect(rs[1..])
        case Err(e) => Err(e)
        case Ok(rest) => Ok((if here.Some? then [here.value] else []) + rest)
  }

  /** The scan succeeds exactly when every line does; otherwise it reports the first failing line's error. */
  lemma {:induction false} CollectDefined<T>(rs: seq<Result<Option<T>, Failure>>)
    ensures Collect(rs).Ok? <==> forall i :: 0 <= i < |rs| ==> rs[i].Ok?
    ensures Collect(rs).Err? ==> exists i :: 0 <= i < |rs| && rs[i] == Err(Collect(rs).error)
                                           && forall j :: 0 <= j < i ==> rs[j].Ok?
    decreases |rs|
  {
    if |rs| > 0 && rs[0].Ok? {
      CollectDefined(rs[1..]);
      assert forall i :: 1 <= i < |rs| ==> rs[i] == rs[1..][i - 1];
      if Collect(rs).Err? {
        var i :| 0 <= i < |rs| - 1 && rs[1..][i] == Err(Collect(rs[1..]).error)
                 && forall j :: 0 <= j < i ==> rs[1..][j].Ok?;
        assert rs[i + 1] == rs[1..][i];
      }
    }
  }

  /** What the scan keeps is exactly what the lines flag. */
  lemma {:induction false} CollectMembers<T>(rs: seq<Result<Option<T>, Failure>>)
    requires Collect(rs).Ok?
    ensures forall x :: x in Collect(rs).value <==> exists i :: 0 <= i < |rs| && rs[i] == Ok(Some(x))
    decreases |rs|
  {
    if |rs| > 0 {
      CollectMembers(rs[1..]);
      assert forall i :: 1 <= i < |rs| ==> rs[i] == rs[1..][i - 1];
      forall x | exists i :: 0 <= i < |rs| && rs[i] == Ok(Some(x))
        ensures x in Collect(rs).value
      {
        var i :| 0 <= i < |rs| && rs[i] == Ok(Some(x));
        if i > 0 {
          assert rs[1..][i - 1] == Ok(Some(x));
        }
      }
    }
  }

  lemma CollectMember<T>(rs: seq<Result<Option<T>, Failure>>, x: T)
    requires Collect(rs).Ok? && x in Collect(rs).value
    ensures exists i :: 0 <= i < |rs| && rs[i] == Ok(Some(x))
  {
    CollectMembers(rs);
  }

  /** What one accepted line contributes to the scan. */
  function Found<T>(here: Option<T>): seq<T> {
    if here.Some? then [here.value] else []
  }

  /** A successful scan succeeded on its first line and on the rest. */
  lemma CollectTail<T>(rs: seq<Result<Option<T>, Failure>>)
    requires |rs| > 0 && Collect(rs).Ok?
    ensures rs[0].Ok? && Collect(rs[1..]).Ok?
    ensures Collect(rs).value == Found(rs[0].value) + Collect(rs[1..]).value
  {
  }

  /** A first line that succeeds, followed by a scan that succeeds, is a scan that succeeds. */
  lemma CollectCons<T>(rs: seq<Result<Option<T>, Failure>>)
    requires |rs| > 0 && rs[0].Ok? && Collect(rs[1..]).Ok?
    ensures Collect(rs) == Ok(Found(rs[0].value) + Collect(rs[1..]).value)
  {
  }

  /** Scanning two runs of lines one after the other concatenates the findings. */
  lemma {:induction false} CollectAppend<T>(a: seq<Result<Option<T>, Failure>>, b: seq<Result<Option<T>, Failure>>)
    requires Collect(a).Ok? && Collect(b).Ok?
    ensures Collect(a + b) == Ok(Collect(a).value + Collect(b).value)
    decreases |a|
  {
    if |a| == 0 {
      assert a + b == b;
      assert [] + Collect(b).value == Collect(b).value;
    } else {
      var ab := a + b;
      assert ab[0] == a[0];
      assert ab[1..] == a[1..] + b;
      CollectTail(a);
      CollectAppend(a[1..], b);
      CollectCons(ab);
      var first := Found(a[0].value);
      assert first + (Collect(a[1..]).value + Collect(b).value) == (first + Collect(a[1..]).value) + Collect(b).value;
    }
  }

  /** A failure in the first run stops the scan there, whatever follows. */
  lemma {:induction false} CollectAppendErr<T>(a: seq<Result<Option<T>, Failure>>, b: seq<Result<Option<T>, Failure>>)
    requires Collect(a).Err?
    ensures Collect(a + b) == Collect(a)
    decreases |a|
  {
    assert (a + b)[0] == a[0];
    if a[0].Ok? {
      assert (a + b)[1..] == a[1..] + b;
      CollectAppendErr(a[1..], b);
    }
  }

  function Lift<T, U>(r: Result<Option<T>, Failure>, g: T -> U): Result<Option<U>, Failure> {
    match r
    case Err(e) => Err(e)
    case Ok(None) => Ok(None)
    case Ok(Some(x)) => Ok(Some(g(x)))
  }

  /** Relabelling every flagged line relabels every finding and leaves failures alone. */
  lemma {:induction false} CollectLift<T, U>(a: seq<Result<Option<T>, Failure>>, b: seq<Result<Option<U>, Failure>>, g: T -> U)
    requires |a| == |b| && forall i :: 0 <= i < |a| ==> b[i] == Lift(a[i], g)
    ensures Collect(b).Ok? <==> Collect(a).Ok?
    ensures Collect(a).Err? ==> Collect(b) == Collect(a).PropagateFailure()
    ensures Collect(a).Ok? ==> |Collect(b).value| == |Collect(a).value|
                               && forall j :: 0 <= j < |Collect(a).value| ==> Collect(b).value[j] == g(Collect(a).value[j])
    decreases |a|
  {
    if |a| > 0 {
      assert forall i :: 0 <= i < |a| - 1 ==> b[1..][i] == Lift(a[1..][i], g);
      CollectLift(a[1..], b[1..], g);
    }
  }

  // ---------------------------------------------------------------------
  // The three scans

  function Verdicts(vs: seq<LineView>, threshold: int): (rs: seq<Result<Option<Difference<string>>, Failure>>)
    ensures |rs| == |vs| && forall i :: 0 <= i < |vs| ==> rs[i] == Compare(vs[i], threshold)
  {
    seq(|vs|, i requires 0 <= i < |vs| => Compare(vs[i], threshold))
  }

  /** `find_total_differences`: the flagged lines keyed by their line text. */
  function FindTotalDifferences(m: Merged, book: string, field: nat, threshold: int): Result<seq<Difference<string>>, Failure> {
    Collect(Verdicts(Views(m, book, field), threshold))
  }

  /** `detect_total_differences`: the same scan, with each flagged key converted by `int()`. */
  function DetectTotalDifferences(m: Merged, book: string, field: nat, threshold: int): Result<seq<Difference<int>>, Failure> {
    var vs := Views(m, book, field);
    Collect(seq(|vs|, i requires 0 <= i < |vs| => NumberKey(Compare(vs[i], threshold))))
  }

  /** The legacy `find_total_differences`, without the presence guard. */
  function LegacyFindTotalDifferences(m: Merged, book: string, field: nat, threshold: int): Result<seq<Difference<string>>, Failure> {
    var vs := Views(m, book, field);
    Collect(seq(|vs|, i requires 0 <= i < |vs| => LegacyCompare(vs[i], threshold)))
  }

  /**
   * A line is reported exactly when it has the book, its declared total is
   * a number, and that number is more than the threshold away from the
   * computed total; the report carries both amounts.
   */
  lemma FindExactlyFlagged(m: Merged, book: string, field: nat, threshold: int)
    requires threshold >= 0 && FindTotalDifferences(m, book, field, threshold).Ok?
    ensures forall d :: d in FindTotalDifferences(m, book, field, threshold).value <==>
              exists i :: 0 <= i < |m| && Views(m, book, field)[i].declared.Some?
                          && d == Difference(m[i].key, m[i].total.GetOr(0), DeclaredCents(Views(m, book, field)[i].declared.value))
                          && IsDifferenceSignificant(d.computed, d.declared, threshold)
  {
    var vs := Views(m, book, field);
    var rs := Verdicts(vs, threshold);
    CollectMembers(rs);
    CollectDefined(rs);
    var found := Collect(rs).value;
    forall d
      ensures d in found <==>
              exists i :: 0 <= i < |m| && vs[i].declared.Some?
                          && d == Difference(m[i].key, m[i].total.GetOr(0), DeclaredCents(vs[i].declared.value))
                          && IsDifferenceSignificant(d.computed, d.declared, threshold)
    {
      if d in found {
        CollectMember(rs, d);
        var i :| 0 <= i < |rs| && rs[i] == Ok(Some(d));
        assert vs[i] == View(m[i], book, field);
      }
      if exists i :: 0 <= i < |m| && vs[i].declared.Some?
                     && d == Difference(m[i].key, m[i].total.GetOr(0), DeclaredCents(vs[i].declared.value))
                     && IsDifferenceSignificant(d.computed, d.declared, threshold) {
        var i :| 0 <= i < |m| && vs[i].declared.Some?
                 && d == Difference(m[i].key, m[i].total.GetOr(0), DeclaredCents(vs[i].declared.value))
                 && IsDifferenceSignificant(d.computed, d.declared, threshold);
        assert vs[i] == View(m[i], book, field);
        assert rs[i].Ok?;
        assert rs[i] == Ok(Some(d));
      }
    }
  }

  /** The scan fails exactly when a line that has the book declares a total that is not a number. */
  lemma FindFails(m: Merged, book: string, field: nat, threshold: int)
    ensures FindTotalDifferences(m, book, field, threshold).Err? <==>
              exists i :: 0 <= i < |m| && book in m[i].books && Views(m, book, field)[i].declared.value.Rejected?
    ensures FindTotalDifferences(m, book, field, threshold).Err? ==>
              FindTotalDifferences(m, book, field, threshold).error.NotANumber?
  {
    var vs := Views(m, book, field);
    var rs := Verdicts(vs, threshold);
    CollectDefined(rs);
    if Collect(rs).Err? {
      var i :| 0 <= i < |rs| && rs[i] == Err(Collect(rs).error) && forall j :: 0 <= j < i ==> rs[j].Ok?;
    }
  }

  lemma ViewsAppend(m1: Merged, m2: Merged, book: string, field: nat)
    ensures Views(m1 + m2, book, field) == Views(m1, book, field) + Views(m2, book, field)
  {
    var m := m1 + m2;
    assert forall i :: |m1| <= i < |m| ==> m[i] == m2[i - |m1|];
  }

  lemma VerdictsAppend(v1: seq<LineView>, v2: seq<LineView>, threshold: int)
    ensures Verdicts(v1 + v2, threshold) == Verdicts(v1, threshold) + Verdicts(v2, threshold)
  {
    var v := v1 + v2;
    assert forall i :: |v1| <= i < |v| ==> v[i] == v2[i - |v1|];
  }

  /** Scanning two runs of merged lines reports the first run's findings, then the second's. */
  lemma FindAppend(m1: Merged, m2: Merged, book: string, field: nat, threshold: int)
    requires FindTotalDifferences(m1, book, field, threshold).Ok?
    requires FindTotalDifferences(m2, book, field, threshold).Ok?
    ensures FindTotalDifferences(m1 + m2, book, field, threshold)
         == Ok(FindTotalDifferences(m1, book, field, threshold).value + FindTotalDifferences(m2, book, field, threshold).value)
  {
    var v1 := Views(m1, book, field);
    var v2 := Views(m2, book, field);
    ViewsAppend(m1, m2, book, field);
    VerdictsAppend(v1, v2, threshold);
    CollectAppend(Verdicts(v1, threshold), Verdicts(v2, threshold));
  }

  /**
   * The legacy scan agrees with the current one when every line has the
   * book, and fails when some line lacks it.
   */
  lemma LegacyFindAgrees(m: Merged, book: string, field: nat, threshold: int)
    ensures (forall i :: 0 <= i < |m| ==> book in m[i].books) ==>
              LegacyFindTotalDifferences(m, book, field, threshold) == FindTotalDifferences(m, book, field, threshold)
    ensures (exists i :: 0 <= i < |m| && book !in m[i].books) ==>
              LegacyFindTotalDifferences(m, book, field, threshold).Err?
  {
    var vs := Views(m, book, field);
    var legacy := seq(|vs|, i requires 0 <= i < |vs| => LegacyCompare(vs[i], threshold));
    if forall i :: 0 <= i < |m| ==> book in m[i].books {
      assert legacy == Verdicts(vs, threshold);
    } else {
      CollectDefined(legacy);
      var i :| 0 <= i < |m| && book !in m[i].books;
      assert legacy[i] == Err(MissingBook);
    }
  }

  /** The difference with its line key read as the number it spells, or 0 if it spells none. */
  function NumberedDifference(d: Difference<string>): Difference<int> {
    Difference(ParseInt(d.line).GetOr(0), d.computed, d.declared)
  }

  /**
   * When every line key is a number, the current scan reports the same lines
   * as `find_total_differences`, each key read as its number, and fails
   * exactly when that one fails.
   */
  lemma DetectNumbersFind(m: Merged, book: string, field: nat, threshold: int)
    requires forall i :: 0 <= i < |m| ==> ParseInt(m[i].key).Some?
    ensures DetectTotalDifferences(m, book, field, threshold).Ok? <==> FindTotalDifferences(m, book, field, threshold).Ok?
    ensures FindTotalDifferences(m, book, field, threshold).Err? ==>
              DetectTotalDifferences(m, book, field, threshold).error == FindTotalDifferences(m, book, field, threshold).error
    ensures FindTotalDifferences(m, book, field, threshold).Ok? ==>
              var f := FindTotalDifferences(m, book, field, threshold).value;
              var d := DetectTotalDifferences(m, book, field, threshold).value;
              |d| == |f| && forall j :: 0 <= j < |f| ==> d[j] == NumberedDifference(f[j])
  {
    var vs := Views(m, book, field);
    var a := Verdicts(vs, threshold);
    var b := seq(|vs|, i requires 0 <= i < |vs| => NumberKey(Compare(vs[i], threshold)));
    forall i | 0 <= i < |a|
      ensures b[i] == Lift(a[i], NumberedDifference)
    {
      assert ParseInt(vs[i].key).Some?;
    }
    CollectLift(a, b, NumberedDifference);
  }

  /** Keys "1", "2", ... of processed files are numbers, so `int(key)` never fails on a merged dictionary. */
  lemma MergedKeysAreNumbers(l1: seq<Keyed>, l2: seq<Keyed>, book1: string, book2: string, i: nat)
    requires Merge.Numbered(l1) && Merge.Numbered(l2)
    requires i < |MergeAndSummarize(l1, l2, book1, book2)|
    ensures exists n: nat :: ParseInt(MergeAndSummarize(l1, l2, book1, book2)[i].key) == Some(n) && 1 <= n
  {
    var m := MergeBooks(l1, l2, book1, book2);
    MergeKeyOrder(l1, l2, book1, book2);
    var k := m[i].key;
    assert k in Keys(m);
    assert k in KeysOf(l1) || k in KeysOf(l2);
    var j: nat;
    if k in KeysOf(l1) {
      j :| j < |l1| && KeysOf(l1)[j] == k;
    } else {
      j :| j < |l2| && KeysOf(l2)[j] == k;
    }
    assert k == NatToString(j + 1) == IntToString(j + 1);
    ParseIntRoundTrip(j + 1);
  }
}
