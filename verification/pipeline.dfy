/**
 * The comparison runs: both books read, their line counts checked, merged
 * line by line, the differences gathered and written back into the first
 * book. Files are given by their lines (None when missing); the report
 * file and the logging are not modelled.
 */
module Pipeline {
  import opened Wrappers
  import opened Failures
  import opened Numerals
  import opened Layouts
  import opened Books
  import opened Merge
  import opened Detect
  import opened Patch
  import opened Documents
  import Money
  import Text

  // ---------------------------------------------------------------------
  // The current run in orchestrator.py

  /** `_gather_differences`: the total differences, then the document entries. */
  function GatherDifferences(m: Merged, book: string, validator: seq<Option<int>> -> seq<string>)
    : (r: Result<seq<Replacement>, Failure>)
    ensures r.Ok? <==> FormatTotalDifferences(m, book).Ok? && DetectAndPrepare(m, book, validator).Ok?
    ensures r.Ok? ==> |r.value| == |FormatTotalDifferences(m, book).value| + |DetectAndPrepare(m, book, validator).value|
    ensures r.Ok? ==> r.value[..|FormatTotalDifferences(m, book).value|] == FormatTotalDifferences(m, book).value
    ensures r.Ok? ==> r.value[|FormatTotalDifferences(m, book).value|..] == DetectAndPrepare(m, book, validator).value
  {
    var totals :- FormatTotalDifferences(m, book);
    var documents :- DetectAndPrepare(m, book, validator);
    assert (totals + documents)[..|totals|] == totals;
    assert (totals + documents)[|totals|..] == documents;
    Ok(totals + documents)
  }

  /** What a successful run leaves: the merged lines, the differences, and the patched copy if one was written. */
  datatype Comparison = Comparison(merged: Merged, differences: seq<Replacement>, written: Option<(string, PatchOutcome)>)

  /** `_apply_differences`, reached only with a non-empty list; a missing file writes nothing. */
  function ApplyDifferences(file: Option<seq<string>>, fileName: string, outputPath: string, ds: seq<Replacement>)
    : (r: Result<Option<(string, PatchOutcome)>, Failure>)
    ensures file.None? ==> r == Ok(None)
    ensures file.Some? ==> (r.Ok? <==> ApplyReplacements(file.value, ds).Ok?)
    ensures file.Some? && r.Ok? ==> r.value == Some((SplitextName(outputPath, fileName), ApplyReplacements(file.value, ds).value))
  {
    match WriteReplacements(file, fileName, outputPath, ds)
    case None => Ok(None)
    case Some(Err(e)) => Err(e)
    case Some(Ok(w)) => Ok(Some(w))
  }

  /**
   * Everything after the line-count check: the merge, the gathering, and the
   * patch of the first book's lines, written only when something was found.
   */
  function CompareBooks(l1: seq<Keyed>, l2: seq<Keyed>, book1: string, book2: string,
                        lines1: seq<string>, fileName1: string, outputPath: string, validator: seq<Option<int>> -> seq<string>)
    : (r: Result<Comparison, Failure>)
    ensures r.Ok? ==> r.value.merged == MergeAndSummarize(l1, l2, book1, book2)
    ensures r.Ok? ==> GatherDifferences(r.value.merged, book1, validator) == Ok(r.value.differences)
    ensures r.Ok? ==> (r.value.written.Some? <==> |r.value.differences| > 0)
    ensures r.Ok? && r.value.written.Some? ==> |r.value.written.value.1.lines| == |lines1|
    ensures r.Ok? && r.value.written.Some? ==> r.value.written.value.0 == SplitextName(outputPath, fileName1)
    ensures r.Ok? && r.value.written.Some? ==> ApplyReplacements(lines1, r.value.differences) == Ok(r.value.written.value.1)
    ensures r.Err? ==> r.error.NotANumber? || r.error == NoneOperand
  {
    var merged := MergeAndSummarize(l1, l2, book1, book2);
    GatherFailsOnValues(merged, book1, validator);
    var differences :- GatherDifferences(merged, book1, validator);
    ApplyFailsOnlyOnNone(lines1, differences);
    if |differences| > 0 then
      var written :- ApplyDifferences(Some(lines1), fileName1, outputPath, differences);
      Ok(Comparison(merged, differences, written))
    else Ok(Comparison(merged, differences, None))
  }

  /**
   * The line-count check both current runs make after reading: a failed read
   * is passed on, first book first, and books of different lengths fail with
   * the size of the difference and both counts before anything is merged.
   */
  function CheckCounts(read1: Result<seq<Keyed>, Failure>, read2: Result<seq<Keyed>, Failure>)
    : (r: Result<(seq<Keyed>, seq<Keyed>), Failure>)
    ensures read1.Err? ==> r == Err(read1.error)
    ensures read1.Ok? && read2.Err? ==> r == Err(read2.error)
    ensures read1.Ok? && read2.Ok? ==> (r.Ok? <==> |read1.value| == |read2.value|)
    ensures (&& read1.Ok? && read2.Ok? && r.Err?) ==>
              (&& r.error.LineCountMismatch?
               && r.error.first == |read1.value| && r.error.second == |read2.value|
               && 0 < r.error.difference
               && (r.error.difference == |read1.value| - |read2.value| || r.error.difference == |read2.value| - |read1.value|))
    ensures r.Ok? ==> r.value == (read1.value, read2.value)
  {
    var l1 :- read1;
    var l2 :- read2;
    if |l1| != |l2| then Err(LineCountMismatch(Money.Abs(|l1| - |l2|), |l1|, |l2|))
    else Ok((l1, l2))
  }

  /** `run_book_comparison` from the two read results on: the count check, then the comparison. */
  function RunOnReads(read1: Result<seq<Keyed>, Failure>, read2: Result<seq<Keyed>, Failure>, file1: Option<seq<string>>,
                      book1: string, book2: string, fileName1: string, outputPath: string,
                      validator: seq<Option<int>> -> seq<string>)
    : (r: Result<Comparison, Failure>)
    requires read1.Ok? ==> file1.Some?
    ensures CheckCounts(read1, read2).Err? ==> r == Err(CheckCounts(read1, read2).error)
    ensures CheckCounts(read1, read2).Ok? ==>
              r == CompareBooks(read1.value, read2.value, book1, book2, file1.value, fileName1, outputPath, validator)
    ensures CheckCounts(read1, read2).Ok? && r.Err? ==> r.error.NotANumber? || r.error == NoneOperand
    ensures r.Ok? ==> CheckCounts(read1, read2).Ok?
    ensures r.Ok? ==> r.value.merged == MergeAndSummarize(read1.value, read2.value, book1, book2)
    ensures r.Ok? ==> GatherDifferences(r.value.merged, book1, validator) == Ok(r.value.differences)
    ensures r.Ok? ==> (r.value.written.Some? <==> |r.value.differences| > 0)
    ensures r.Ok? && r.value.written.Some? ==> r.value.written.value.0 == SplitextName(outputPath, fileName1)
    ensures r.Ok? && r.value.written.Some? ==> ApplyReplacements(file1.value, r.value.differences) == Ok(r.value.written.value.1)
    ensures r.Ok? && r.value.written.Some? ==> |r.value.written.value.1.lines| == |file1.value|
  {
    var (l1, l2) :- CheckCounts(read1, read2);
    CompareBooks(l1, l2, book1, book2, file1.value, fileName1, outputPath, validator)
  }

  /** `run_book_comparison`: both books are read, then checked and compared. */
  function RunBookComparison(file1: Option<seq<string>>, book1: string, file2: Option<seq<string>>, book2: string,
                             fileName1: string, outputPath: string, validator: seq<Option<int>> -> seq<string>)
    : Result<Comparison, Failure>
  {
    RunOnReads(ProcessBook(file1, book1), ProcessBook(file2, book2), file1, book1, book2, fileName1, outputPath, validator)
  }

  /**
   * On two numbered books of the same length the merged lines are the pairs
   * of lines, so every difference gathered names a line of the first book:
   * none is skipped as out of range.
   */
  lemma CompareTargetsInRange(l1: seq<Keyed>, l2: seq<Keyed>, book1: string, book2: string,
                              lines1: seq<string>, fileName1: string, outputPath: string, validator: seq<Option<int>> -> seq<string>)
    requires Numbered(l1) && Numbered(l2) && |l1| == |l2| == |lines1| && book1 != book2
    requires CompareBooks(l1, l2, book1, book2, lines1, fileName1, outputPath, validator).Ok?
    ensures var c := CompareBooks(l1, l2, book1, book2, lines1, fileName1, outputPath, validator).value;
      forall j :: 0 <= j < |c.differences| ==> 0 < c.differences[j].line <= |lines1|
  {
    MergedNumbered(l1, l2, book1, book2);
    GatheredInRange(MergeAndSummarize(l1, l2, book1, book2), book1, validator);
  }

  /** A run that succeeds on two differently named numbered books patches only lines the first book has. */
  lemma RunTargetsInRange(read1: Result<seq<Keyed>, Failure>, read2: Result<seq<Keyed>, Failure>, file1: Option<seq<string>>,
                          book1: string, book2: string, fileName1: string, outputPath: string,
                          validator: seq<Option<int>> -> seq<string>)
    requires read1.Ok? ==> file1.Some? && |file1.value| == |read1.value| && Numbered(read1.value)
    requires read2.Ok? ==> Numbered(read2.value)
    requires book1 != book2
    requires RunOnReads(read1, read2, file1, book1, book2, fileName1, outputPath, validator).Ok?
    ensures var c := RunOnReads(read1, read2, file1, book1, book2, fileName1, outputPath, validator).value;
      forall j :: 0 <= j < |c.differences| ==> 0 < c.differences[j].line <= |file1.value|
  {
    CompareTargetsInRange(read1.value, read2.value, book1, book2, file1.value, fileName1, outputPath, validator);
  }

  /** Two numbered books of the same length merge into lines keyed "1" .. "n". */
  lemma MergedNumbered(l1: seq<Keyed>, l2: seq<Keyed>, book1: string, book2: string)
    requires Numbered(l1) && Numbered(l2) && |l1| == |l2| && book1 != book2
    ensures var m := MergeAndSummarize(l1, l2, book1, book2);
      |m| == |l1| && forall i :: 0 <= i < |m| ==> m[i].key == NatToString(i + 1)
  {
    PositionalSummary(l1, l2, book1, book2);
  }

  /** On lines keyed "1" .. "n" every gathered difference names one of those lines. */
  lemma GatheredInRange(m: Merged, book: string, validator: seq<Option<int>> -> seq<string>)
    requires forall i :: 0 <= i < |m| ==> m[i].key == NatToString(i + 1)
    requires GatherDifferences(m, book, validator).Ok?
    ensures forall j :: 0 <= j < |GatherDifferences(m, book, validator).value| ==>
              0 < GatherDifferences(m, book, validator).value[j].line <= |m|
  {
    TotalLinesInRange(m, book);
    DocumentLinesInRange(m, book, validator);
    InRangeConcat(FormatTotalDifferences(m, book).value, DetectAndPrepare(m, book, validator).value,
                  GatherDifferences(m, book, validator).value, |m|);
  }

  predicate AllInRange(es: seq<Replacement>, n: nat) {
    forall j :: 0 <= j < |es| ==> 0 < es[j].line <= n
  }

  lemma InRangeConcat(a: seq<Replacement>, b: seq<Replacement>, g: seq<Replacement>, n: nat)
    requires |g| == |a| + |b| && g[..|a|] == a && g[|a|..] == b
    requires AllInRange(a, n) && AllInRange(b, n)
    ensures AllInRange(g, n)
  {
    forall j | 0 <= j < |g|
      ensures 0 < g[j].line <= n
    {
      if j < |a| {
        assert g[..|a|][j] == g[j];
      } else {
        assert g[|a|..][j - |a|] == g[j];
      }
    }
  }

  /** Lines keyed "1" .. "n" give total differences on lines 1 .. n. */
  lemma TotalLinesInRange(m: Merged, book: string)
    requires forall i :: 0 <= i < |m| ==> m[i].key == NatToString(i + 1)
    requires FormatTotalDifferences(m, book).Ok?
    ensures forall j :: 0 <= j < |FormatTotalDifferences(m, book).value| ==>
              0 < FormatTotalDifferences(m, book).value[j].line <= |m|
  {
    NumberedKeysParse(m);
    FormatTotalsShape(m, book);
    DetectNumbersFind(m, book, TOTAL_FIELD, ONE_PESO);
    FoundOnKeys(m, book);
    KeyLinesInRange(m, FindTotalDifferences(m, book, TOTAL_FIELD, ONE_PESO).value);
  }

  /** A line named by one of the keys "1" .. "n" parses to a number in 1 .. n. */
  lemma KeyLinesInRange(m: Merged, f: seq<Difference<string>>)
    requires forall i :: 0 <= i < |m| ==> m[i].key == NatToString(i + 1)
    requires forall j :: 0 <= j < |f| ==> exists i :: 0 <= i < |m| && f[j].line == m[i].key
    ensures forall j :: 0 <= j < |f| ==> 0 < ParseInt(f[j].line).GetOr(0) <= |m|
  {
    forall j | 0 <= j < |f|
      ensures 0 < ParseInt(f[j].line).GetOr(0) <= |m|
    {
      var i :| 0 <= i < |m| && f[j].line == m[i].key;
      ParseIntRoundTrip(i + 1);
    }
  }

  /** `int()` reads each key "1" .. "n" back as its line number. */
  lemma NumberedKeysParse(m: Merged)
    requires forall i :: 0 <= i < |m| ==> m[i].key == NatToString(i + 1)
    ensures forall i :: 0 <= i < |m| ==> ParseInt(m[i].key) == Some(i + 1)
  {
    forall i | 0 <= i < |m|
      ensures ParseInt(m[i].key) == Some(i + 1)
    {
      ParseIntRoundTrip(i + 1);
    }
  }

  /** Every reported difference carries the key of a merged line. */
  lemma FoundOnKeys(m: Merged, book: string)
    requires FindTotalDifferences(m, book, TOTAL_FIELD, ONE_PESO).Ok?
    ensures var f := FindTotalDifferences(m, book, TOTAL_FIELD, ONE_PESO).value;
      forall j :: 0 <= j < |f| ==> exists i :: 0 <= i < |m| && f[j].line == m[i].key
  {
    FindExactlyFlagged(m, book, TOTAL_FIELD, ONE_PESO);
    var f := FindTotalDifferences(m, book, TOTAL_FIELD, ONE_PESO).value;
    forall j | 0 <= j < |f|
      ensures exists i :: 0 <= i < |m| && f[j].line == m[i].key
    {
      assert f[j] in f;
    }
  }

  /** Document entries name positions of the extracted list, which is no longer than the merged lines. */
  lemma DocumentLinesInRange(m: Merged, book: string, validator: seq<Option<int>> -> seq<string>)
    requires DetectAndPrepare(m, book, validator).Ok?
    ensures forall j :: 0 <= j < |DetectAndPrepare(m, book, validator).value| ==>
              0 < DetectAndPrepare(m, book, validator).value[j].line <= |m|
  {
    var docs := ExtractDocuments(m, book, DOCUMENT_FIELD);
    var invalid := InvalidSet(validator(docs)).value;
    forall j | 0 <= j < |Entries(docs, invalid)|
      ensures 0 < Entries(docs, invalid)[j].line <= |docs|
    {
      EntriesContent(docs, invalid, j);
    }
  }

  // ---------------------------------------------------------------------
  // The earlier run in main.py

  /**
   * `process_book_comparison` from the two read results on: the same count
   * check, then the merge and the search for total differences; the program
   * exits right after, so nothing is written.
   */
  function MainOnReads(read1: Result<seq<Keyed>, Failure>, read2: Result<seq<Keyed>, Failure>, book1: string, book2: string)
    : (r: Result<seq<Difference<string>>, Failure>)
    ensures CheckCounts(read1, read2).Err? ==> r == Err(CheckCounts(read1, read2).error)
    ensures CheckCounts(read1, read2).Ok? ==>
              r == FindTotalDifferences(MergeAndSummarize(read1.value, read2.value, book1, book2), book1, TOTAL_FIELD, ONE_PESO)
    ensures CheckCounts(read1, read2).Ok? && r.Err? ==> r.error.NotANumber?
    ensures r.Ok? ==> CheckCounts(read1, read2).Ok?
  {
    var (l1, l2) :- CheckCounts(read1, read2);
    FindFails(MergeAndSummarize(l1, l2, book1, book2), book1, TOTAL_FIELD, ONE_PESO);
    FindTotalDifferences(MergeAndSummarize(l1, l2, book1, book2), book1, TOTAL_FIELD, ONE_PESO)
  }

  /** `process_book_comparison`: both books are read, then checked and compared. */
  function MainComparison(file1: Option<seq<string>>, book1: string, file2: Option<seq<string>>, book2: string)
    : Result<seq<Difference<string>>, Failure>
  {
    MainOnReads(ProcessBook(file1, book1), ProcessBook(file2, book2), book1, book2)
  }

  /** Both runs reject the same pairs of read results for their line counts, with the same message. */
  lemma CountChecksAgree(read1: Result<seq<Keyed>, Failure>, read2: Result<seq<Keyed>, Failure>, file1: Option<seq<string>>,
                         book1: string, book2: string, fileName1: string, outputPath: string,
                         validator: seq<Option<int>> -> seq<string>, e: Failure)
    requires read1.Ok? ==> file1.Some?
    requires e.LineCountMismatch?
    ensures MainOnReads(read1, read2, book1, book2) == Err(e)
        <==> RunOnReads(read1, read2, file1, book1, book2, fileName1, outputPath, validator) == Err(e)
  {
  }

  /** The current scan fails only on a text that is not a number. */
  lemma DetectFailsOnValues(m: Merged, book: string)
    ensures DetectTotalDifferences(m, book, TOTAL_FIELD, ONE_PESO).Err? ==>
              DetectTotalDifferences(m, book, TOTAL_FIELD, ONE_PESO).error.NotANumber?
  {
    var vs := Views(m, book, TOTAL_FIELD);
    var rs := seq(|vs|, i requires 0 <= i < |vs| => NumberKey(Compare(vs[i], ONE_PESO)));
    CollectDefined(rs);
  }

  /** Gathering fails only on a text that is not a number: an amount, a line key or a reported document. */
  lemma GatherFailsOnValues(m: Merged, book: string, validator: seq<Option<int>> -> seq<string>)
    ensures GatherDifferences(m, book, validator).Err? ==> GatherDifferences(m, book, validator).error.NotANumber?
  {
    FormatTotalsShape(m, book);
    DetectFailsOnValues(m, book);
  }

  /** The current patcher fails only on a missing text; a line out of range is a warning. */
  lemma {:induction false} ApplyFailsOnlyOnNone(lines: seq<string>, es: seq<Replacement>)
    ensures ApplyReplacements(lines, es).Err? ==> ApplyReplacements(lines, es).error == NoneOperand
    decreases |es|
  {
    if |es| > 0 && PatchStep(lines, es[0]).Ok? {
      ApplyFailsOnlyOnNone(PatchStep(lines, es[0]).value.0, es[1..]);
    }
  }

  // ---------------------------------------------------------------------
  // The legacy run in checker_file.py

  /** The legacy `process_file`: a missing file fails, the lines are numbered from 1. */
  function LegacyProcessFile(file: Option<seq<string>>, name: string): (r: Result<seq<Keyed>, Failure>)
    ensures file.None? ==> r == Err(FileMissing)
    ensures r.Ok? ==> file.Some? && |r.value| == |file.value| && Numbered(r.value)
  {
    match file
    case None => Err(FileMissing)
    case Some(lines) =>
      var r := LegacyProcessLines(lines, name, 1);
      if r.Ok? then
        ScanShape(lines, LegacyProcessed(lines, name), GetBookLength(name), 1);
        r
      else r
  }

  /** The detected difference as the tuple the legacy writer reads, its line key converted by `int()`. */
  function LegacyItem(d: Difference<string>): (r: Result<DiffItem, Failure>)
    ensures r.Ok? <==> ParseInt(d.line).Some?
    ensures r.Ok? ==> r.value == Triple(ParseInt(d.line).value, Money.Cents(d.computed), Money.Cents(d.declared))
    ensures r.Err? ==> r.error == NotANumber(d.line)
  {
    match ParseInt(d.line)
    case None => Err(NotANumber(d.line))
    case Some(n) => Ok(Triple(n, Money.Cents(d.computed), Money.Cents(d.declared)))
  }

  /** Item `j` is the first whose key does not convert, failing with `e`. */
  predicate FirstFailing(ds: seq<Difference<string>>, j: int, e: Failure) {
    && 0 <= j < |ds| && LegacyItem(ds[j]).Err? && e == LegacyItem(ds[j]).error
    && forall k :: 0 <= k < j ==> LegacyItem(ds[k]).Ok?
  }

  /** Every reported key converted with `int()`, in order. */
  function LegacyItems(ds: seq<Difference<string>>): (r: Result<seq<DiffItem>, Failure>)
    ensures r.Ok? <==> forall j :: 0 <= j < |ds| ==> LegacyItem(ds[j]).Ok?
    ensures r.Ok? ==> |r.value| == |ds| && forall j :: 0 <= j < |ds| ==> r.value[j] == LegacyItem(ds[j]).value
    ensures r.Err? ==> r.error.NotANumber?
    decreases |ds|
  {
    if |ds| == 0 then Ok([])
    else
      var head := LegacyItem(ds[0]);
      if head.Err? then Err(head.error)
      else
        var tail := LegacyItems(ds[1..]);
        assert forall j :: 0 < j < |ds| ==> ds[1..][j - 1] == ds[j];
        if tail.Err? then Err(tail.error)
        else Ok([head.value] + tail.value)
  }

  /** When the conversion fails, the error is that of the first key `int()` rejects. */
  lemma {:induction false} LegacyItemsFirstFailure(ds: seq<Difference<string>>)
    requires LegacyItems(ds).Err?
    ensures exists j :: FirstFailing(ds, j, LegacyItems(ds).error)
    decreases |ds|
  {
    if LegacyItem(ds[0]).Err? {
      assert FirstFailing(ds, 0, LegacyItems(ds).error);
    } else {
      LegacyItemsFirstFailure(ds[1..]);
      var e := LegacyItems(ds[1..]).error;
      assert LegacyItems(ds).error == e;
      var j :| FirstFailing(ds[1..], j, e);
      assert ds[j + 1] == ds[1..][j];
      forall k | 0 <= k < j + 1
        ensures LegacyItem(ds[k]).Ok?
      {
        if k > 0 {
          assert ds[k] == ds[1..][k - 1];
        }
      }
      assert FirstFailing(ds, j + 1, e);
    }
  }

  /**
   * The loop of the legacy `replace_values_in_file`: each reported difference,
   * already formatted, has its line key converted by `int()` only when the
   * loop reaches it, then patches the lines. Formatting a 3-tuple never fails,
   * so formatting every item first and formatting each as it is reached give
   * the same replacements.
   */
  function LegacyWriteLoop(lines: seq<string>, ds: seq<Difference<string>>): (r: Result<seq<string>, Failure>)
    ensures r.Ok? ==> |r.value| == |lines|
    ensures r.Err? ==> r.error.NotANumber? || r.error.LineOutOfRange? || r.error == NoneOperand
    ensures |ds| > 0 && ParseInt(ds[0].line).None? ==> r == Err(NotANumber(ds[0].line))
    decreases |ds|
  {
    if |ds| == 0 then Ok(lines)
    else
      var item :- LegacyItem(ds[0]);
      var next :- LegacyPatchStep(lines, FormatDifference(item).value);
      LegacyWriteLoop(next, ds[1..])
  }

  /**
   * A successful legacy loop converted every key; and when every key
   * converts, the loop is the legacy patch of the formatted items.
   */
  lemma {:induction false} LegacyWriteLoopAgrees(lines: seq<string>, ds: seq<Difference<string>>)
    ensures LegacyWriteLoop(lines, ds).Ok? ==> LegacyItems(ds).Ok?
    ensures LegacyItems(ds).Ok? ==>
              && FormatDifferences(LegacyItems(ds).value).Ok?
              && LegacyWriteLoop(lines, ds) == LegacyPatch(lines, FormatDifferences(LegacyItems(ds).value).value)
    decreases |ds|
  {
    if |ds| > 0 {
      var head := LegacyItem(ds[0]);
      if head.Ok? {
        var e := FormatDifference(head.value).value;
        var step := LegacyPatchStep(lines, e);
        if step.Ok? {
          LegacyWriteLoopAgrees(step.value, ds[1..]);
        } else {
          LegacyWriteLoopAgrees(lines, ds[1..]);
        }
        if LegacyItems(ds).Ok? {
          var items := LegacyItems(ds).value;
          assert items == [head.value] + LegacyItems(ds[1..]).value;
          assert items[1..] == LegacyItems(ds[1..]).value;
          var es := FormatDifferences(items).value;
          assert es[0] == e;
          assert es[1..] == FormatDifferences(items[1..]).value;
        }
      }
    }
  }

  /**
   * Keys are converted in the loop, not beforehand: a first difference past
   * the end of the file raises IndexError even when a later key is not a
   * number, where converting every key first would raise ValueError.
   */
  lemma LegacyConvertsInLoop()
    ensures LegacyWriteLoop(["x"], [Difference("5", 0, 0), Difference("z", 0, 0)]) == Err(LineOutOfRange(4))
    ensures LegacyItems([Difference("5", 0, 0), Difference("z", 0, 0)]) == Err(NotANumber("z"))
  {
    var ds := [Difference("5", 0, 0), Difference("z", 0, 0)];
    assert !Text.IsSpace('5') && !Text.IsSpace('z');
    assert Text.Strip("5") == "5" && Text.Strip("z") == "z";
    assert AllDigits("5") && DigitsValue("5") == 5;
    assert ParseInt("5") == Some(5);
    assert !IntegerText("z");
    var item := LegacyItem(ds[0]);
    assert item == Ok(Triple(5, Money.Cents(0), Money.Cents(0)));
    assert LegacyPatchStep(["x"], FormatDifference(item.value).value) == Err(LineOutOfRange(4));
    assert ds[1..] == [Difference("z", 0, 0)];
    assert LegacyItem(ds[1]) == Err(NotANumber("z"));
  }

  /** What the legacy run leaves: the merged lines, the differences, and the patched lines with their name. */
  datatype LegacyComparison = LegacyComparison(merged: Merged, differences: seq<Difference<string>>,
                                               written: Option<(string, seq<string>)>)

  /**
   * The legacy run once both books are read: merged and summed with no check
   * of their line counts; the report comes before the patch, and the patch,
   * when there are differences, has no range check on line numbers.
   */
  function LegacyCompareBooks(l1: seq<Keyed>, l2: seq<Keyed>, book1: string, book2: string,
                              lines1: seq<string>, fileName1: string, outputPath: string)
    : (r: Result<LegacyComparison, Failure>)
    ensures r.Ok? ==> r.value.merged == MergeAndSummarize(l1, l2, book1, book2)
    ensures r.Ok? ==> LegacyFindTotalDifferences(r.value.merged, book1, TOTAL_FIELD, ONE_PESO) == Ok(r.value.differences)
    ensures r.Ok? ==> (r.value.written.Some? <==> |r.value.differences| > 0)
    ensures r.Ok? && r.value.written.Some? ==> |r.value.written.value.1| == |lines1|
    ensures r.Ok? && r.value.written.Some? ==> r.value.written.value.0 == FirstDotName(outputPath, fileName1)
    ensures r.Ok? && r.value.written.Some? ==> LegacyWriteLoop(lines1, r.value.differences) == Ok(r.value.written.value.1)
    ensures r.Ok? && r.value.written.Some? ==>
              && LegacyItems(r.value.differences).Ok?
              && FormatDifferences(LegacyItems(r.value.differences).value).Ok?
              && LegacyPatch(lines1, FormatDifferences(LegacyItems(r.value.differences).value).value) == Ok(r.value.written.value.1)
    ensures r.Err? ==> || r.error == MissingBook || r.error.NotANumber?
                       || r.error.LineOutOfRange? || r.error == NoneOperand
  {
    var merged := MergeAndSummarize(l1, l2, book1, book2);
    LegacyFindFails(merged, book1);
    var differences :- LegacyFindTotalDifferences(merged, book1, TOTAL_FIELD, ONE_PESO);
    if |differences| == 0 then Ok(LegacyComparison(merged, differences, None))
    else
      LegacyWriteLoopAgrees(lines1, differences);
      var lines :- LegacyWriteLoop(lines1, differences);
      Ok(LegacyComparison(merged, differences, Some((FirstDotName(outputPath, fileName1), lines))))
  }

  /** `complete_process` from the two read results on: there is no count check. */
  function LegacyOnReads(read1: Result<seq<Keyed>, Failure>, read2: Result<seq<Keyed>, Failure>, file1: Option<seq<string>>,
                         book1: string, book2: string, fileName1: string, outputPath: string)
    : (r: Result<LegacyComparison, Failure>)
    requires read1.Ok? ==> file1.Some?
    ensures read1.Err? ==> r == Err(read1.error)
    ensures read1.Ok? && read2.Err? ==> r == Err(read2.error)
    ensures read1.Ok? && read2.Ok? ==>
              r == LegacyCompareBooks(read1.value, read2.value, book1, book2, file1.value, fileName1, outputPath)
  {
    var l1 :- read1;
    var l2 :- read2;
    LegacyCompareBooks(l1, l2, book1, book2, file1.value, fileName1, outputPath)
  }

  /** `complete_process`: both books are read, then compared whatever their line counts. */
  function LegacyCompleteProcess(file1: Option<seq<string>>, book1: string, file2: Option<seq<string>>, book2: string,
                                 fileName1: string, outputPath: string)
    : Result<LegacyComparison, Failure>
  {
    LegacyOnReads(LegacyProcessFile(file1, book1), LegacyProcessFile(file2, book2), file1, book1, book2, fileName1, outputPath)
  }

  /** The legacy scan fails only on a line without the book or a total that is not a number. */
  lemma LegacyFindFails(m: Merged, book: string)
    ensures LegacyFindTotalDifferences(m, book, TOTAL_FIELD, ONE_PESO).Err? ==>
              LegacyFindTotalDifferences(m, book, TOTAL_FIELD, ONE_PESO).error == MissingBook
              || LegacyFindTotalDifferences(m, book, TOTAL_FIELD, ONE_PESO).error.NotANumber?
  {
    var vs := Views(m, book, TOTAL_FIELD);
    var rs := seq(|vs|, i requires 0 <= i < |vs| => LegacyCompare(vs[i], ONE_PESO));
    CollectDefined(rs);
  }

  /**
   * The legacy writer converts each line key with `int()` inside its loop;
   * on numbered books every reported key is a number, so the conversion
   * never fails, whatever the books' lengths.
   */
  lemma LegacyKeysConvert(l1: seq<Keyed>, l2: seq<Keyed>, book1: string, book2: string)
    requires Numbered(l1) && Numbered(l2)
    requires LegacyFindTotalDifferences(MergeAndSummarize(l1, l2, book1, book2), book1, TOTAL_FIELD, ONE_PESO).Ok?
    ensures LegacyItems(LegacyFindTotalDifferences(MergeAndSummarize(l1, l2, book1, book2), book1, TOTAL_FIELD, ONE_PESO).value).Ok?
  {
    var m := MergeAndSummarize(l1, l2, book1, book2);
    LegacyFindAgrees(m, book1, TOTAL_FIELD, ONE_PESO);
    FoundOnKeys(m, book1);
    var f := FindTotalDifferences(m, book1, TOTAL_FIELD, ONE_PESO).value;
    forall j | 0 <= j < |f|
      ensures LegacyItem(f[j]).Ok?
    {
      var i :| 0 <= i < |m| && f[j].line == m[i].key;
      MergedKeysAreNumbers(l1, l2, book1, book2, i);
    }
  }

  /**
   * Once both books are read the legacy run never fails on line counts,
   * where the current run fails on every pair of books of different lengths.
   */
  lemma LegacyHasNoCountCheck(l1: seq<Keyed>, l2: seq<Keyed>, file1: Option<seq<string>>, book1: string, book2: string,
                              fileName1: string, outputPath: string, validator: seq<Option<int>> -> seq<string>)
    requires file1.Some?
    ensures LegacyOnReads(Ok(l1), Ok(l2), file1, book1, book2, fileName1, outputPath).Err? ==>
              !LegacyOnReads(Ok(l1), Ok(l2), file1, book1, book2, fileName1, outputPath).error.LineCountMismatch?
    ensures |l1| != |l2| ==>
              RunOnReads(Ok(l1), Ok(l2), file1, book1, book2, fileName1, outputPath, validator).Err?
              && RunOnReads(Ok(l1), Ok(l2), file1, book1, book2, fileName1, outputPath, validator).error.LineCountMismatch?
  {
  }
}
