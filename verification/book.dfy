/**
 * Reading one book file: every line must have the book's fixed width (plus
 * its terminator); each line is stripped, decoded and totalled, and kept
 * under its 1-based line number. One bad line aborts the whole file.
 */
module Books {
  import opened Wrappers
  import opened Failures
  import opened Text
  import opened Numerals
  import opened Layouts
  import opened Codec
  import opened Totals

  /** `{str(index): record}`: one processed line under its line number. */
  datatype Keyed = Keyed(key: string, record: Record)

  /** The keys of a processed file, in order. */
  function KeysOf(l: seq<Keyed>): (r: seq<string>)
    ensures |r| == |l| && forall i :: 0 <= i < |l| ==> r[i] == l[i].key
  {
    seq(|l|, i requires 0 <= i < |l| => l[i].key)
  }

  /** Processes one line that passed the length gate. */
  function ProcessLine(line: string, name: string, zeroPadText: string): (r: Result<Record, Failure>)
    ensures r.Ok? ==> IsBookName(name)
    ensures r.Ok? ==> r.value.fields == DecodeWith(Strip(line), GetBookStructure(name).value, zeroPadText)
  {
    var layout :- GetBookStructure(name);
    CalculateFieldTotals(DecodeWith(Strip(line), layout, zeroPadText), RetrieveKeysToSum(name))
  }

  /**
   * The loop of `process_book_file` from line number `index` on, given what
   * each line turns into once past the gate: the length gate comes first,
   * and the first failure ends the run with no partial result.
   */
  function Scan(lines: seq<string>, results: seq<Result<Record, Failure>>, expected: nat, index: nat): (r: Result<seq<Keyed>, Failure>)
    requires |results| == |lines|
    ensures r.Ok? ==> |r.value| == |lines|
    decreases |lines|
  {
    if |lines| == 0 then Ok([])
    else if |lines[0]| - 1 != expected then Err(LineLengthMismatch(index, |lines[0]|, expected))
    else
      match results[0]
      case Err(e) => Err(e)
      case Ok(record) =>
        var rest :- Scan(lines[1..], results[1..], expected, index + 1);
        Ok([Keyed(NatToString(index), record)] + rest)
  }

  /**
   * A successful scan keeps every line: the i-th entry is keyed by line
   * number `index + i`, its line passed the gate, and it holds that line's
   * record.
   */
  lemma {:induction false} ScanShape(lines: seq<string>, results: seq<Result<Record, Failure>>, expected: nat, index: nat)
    requires |results| == |lines| && Scan(lines, results, expected, index).Ok?
    ensures var r := Scan(lines, results, expected, index).value;
            && (forall i :: 0 <= i < |lines| ==> r[i].key == NatToString(index + i))
            && (forall i :: 0 <= i < |lines| ==> |lines[i]| == expected + 1)
            && (forall i :: 0 <= i < |lines| ==> results[i] == Ok(r[i].record))
    decreases |lines|
  {
    if |lines| > 0 {
      ScanShape(lines[1..], results[1..], expected, index + 1);
      assert forall i :: 1 <= i < |lines| ==> lines[i] == lines[1..][i - 1] && results[i] == results[1..][i - 1];
    }
  }

  /** What every line of the file turns into once past the gate. */
  function Processed(lines: seq<string>, name: string, zeroPadText: string): (r: seq<Result<Record, Failure>>)
    ensures |r| == |lines| && forall i :: 0 <= i < |lines| ==> r[i] == ProcessLine(lines[i], name, zeroPadText)
  {
    seq(|lines|, i requires 0 <= i < |lines| => ProcessLine(lines[i], name, zeroPadText))
  }

  /** `process_book_file` on the lines of a file, numbered from `index`. */
  function ProcessLines(lines: seq<string>, name: string, index: nat, zeroPadText: string): Result<seq<Keyed>, Failure>
  {
    Scan(lines, Processed(lines, name, zeroPadText), GetBookLength(name), index)
  }

  /**
   * `process_book_file` (and its twin `parse_book_file`): a missing file is
   * an error; otherwise the lines are numbered from 1.
   */
  function ProcessBook(file: Option<seq<string>>, name: string): (r: Result<seq<Keyed>, Failure>)
    ensures file.None? ==> r == Err(FileMissing)
    ensures r.Ok? ==> file.Some? && |r.value| == |file.value|
    ensures r.Ok? ==> forall i :: 0 <= i < |r.value| ==> r.value[i].key == NatToString(i + 1)
    ensures r.Ok? ==> forall i :: 0 <= i < |r.value| ==> |file.value[i]| == GetBookLength(name) + 1
  {
    match file
    case None => Err(FileMissing)
    case Some(lines) =>
      var r := ProcessLines(lines, name, 1, ZERO_PAD_TEXT);
      if r.Ok? then
        ProcessLinesShape(lines, name, 1, ZERO_PAD_TEXT);
        r
      else r
  }

  /** A successful run keeps every line, under its line number, and every line passed the gate. */
  lemma ProcessLinesShape(lines: seq<string>, name: string, index: nat, zeroPadText: string)
    requires ProcessLines(lines, name, index, zeroPadText).Ok?
    ensures var r := ProcessLines(lines, name, index, zeroPadText).value;
            && |r| == |lines|
            && (forall i :: 0 <= i < |r| ==> r[i].key == NatToString(index + i))
            && (forall i :: 0 <= i < |r| ==> |lines[i]| == GetBookLength(name) + 1)
  {
    ScanShape(lines, Processed(lines, name, zeroPadText), GetBookLength(name), index);
  }

  /** The result of scanning `a` and then `b`, numbered on from `a`. */
  function ThenScan(first: Result<seq<Keyed>, Failure>, b: seq<string>, rb: seq<Result<Record, Failure>>, expected: nat, index: nat): Result<seq<Keyed>, Failure>
    requires |rb| == |b|
  {
    match first
    case Err(e) => Err(e)
    case Ok(x) =>
      match Scan(b, rb, expected, index)
      case Err(e) => Err(e)
      case Ok(y) => Ok(x + y)
  }

  /**
   * Scanning a file in two pieces: the first piece's failure wins, and
   * otherwise the second piece is numbered on from where the first stopped.
   */
  lemma {:induction false} ScanAppend(a: seq<string>, ra: seq<Result<Record, Failure>>, b: seq<string>, rb: seq<Result<Record, Failure>>, expected: nat, index: nat)
    requires |ra| == |a| && |rb| == |b|
    ensures Scan(a + b, ra + rb, expected, index) == ThenScan(Scan(a, ra, expected, index), b, rb, expected, index + |a|)
    decreases |a|
  {
    if |a| == 0 {
      assert a + b == b && ra + rb == rb;
      var sb := Scan(b, rb, expected, index);
      if sb.Ok? {
        assert [] + sb.value == sb.value;
      }
    } else {
      ScanAppend(a[1..], ra[1..], b, rb, expected, index + 1);
      ScanAppendStep(a, ra, b, rb, expected, index);
    }
  }

  lemma ScanAppendStep(a: seq<string>, ra: seq<Result<Record, Failure>>, b: seq<string>, rb: seq<Result<Record, Failure>>, expected: nat, index: nat)
    requires |ra| == |a| > 0 && |rb| == |b|
    requires Scan(a[1..] + b, ra[1..] + rb, expected, index + 1) == ThenScan(Scan(a[1..], ra[1..], expected, index + 1), b, rb, expected, index + |a|)
    ensures Scan(a + b, ra + rb, expected, index) == ThenScan(Scan(a, ra, expected, index), b, rb, expected, index + |a|)
  {
    ConsAppend(a, b);
    ConsAppend(ra, rb);
    ScanUnfold(a + b, ra + rb, expected, index);
    ScanUnfold(a, ra, expected, index);
    HeadThen(a[0], ra[0], Scan(a[1..], ra[1..], expected, index + 1), b, rb, expected, index, index + |a|);
  }

  /** One step of the scan: the gate and the line's own result decide before the rest is looked at. */
  function ScanHead(line: string, result: Result<Record, Failure>, rest: Result<seq<Keyed>, Failure>, expected: nat, index: nat)
    : Result<seq<Keyed>, Failure>
  {
    if |line| - 1 != expected then Err(LineLengthMismatch(index, |line|, expected))
    else
      match result
      case Err(e) => Err(e)
      case Ok(record) =>
        match rest
        case Err(e) => Err(e)
        case Ok(tail) => Ok([Keyed(NatToString(index), record)] + tail)
  }

  lemma ScanUnfold(lines: seq<string>, results: seq<Result<Record, Failure>>, expected: nat, index: nat)
    requires |results| == |lines| > 0
    ensures Scan(lines, results, expected, index)
         == ScanHead(lines[0], results[0], Scan(lines[1..], results[1..], expected, index + 1), expected, index)
  {
  }

  lemma HeadThen(line: string, result: Result<Record, Failure>, rest: Result<seq<Keyed>, Failure>,
                 b: seq<string>, rb: seq<Result<Record, Failure>>, expected: nat, index: nat, next: nat)
    requires |rb| == |b|
    ensures ScanHead(line, result, ThenScan(rest, b, rb, expected, next), expected, index)
         == ThenScan(ScanHead(line, result, rest, expected, index), b, rb, expected, next)
  {
    if |line| - 1 == expected && result.Ok? && rest.Ok? {
      var sb := Scan(b, rb, expected, next);
      if sb.Ok? {
        var head := [Keyed(NatToString(index), result.value)];
        assert head + (rest.value + sb.value) == (head + rest.value) + sb.value;
      }
    }
  }

  lemma ConsAppend<T>(a: seq<T>, b: seq<T>)
    requires |a| > 0
    ensures (a + b)[0] == a[0] && (a + b)[1..] == a[1..] + b
  {
  }

  /**
   * Processing a file in two pieces: the first piece's failure wins, and
   * otherwise the second piece is numbered on from where the first stopped.
   */
  lemma ProcessAppend(a: seq<string>, b: seq<string>, name: string, index: nat, zeroPadText: string)
    ensures ProcessLines(a + b, name, index, zeroPadText)
         == match ProcessLines(a, name, index, zeroPadText)
            case Err(e) => Err(e)
            case Ok(x) =>
              match ProcessLines(b, name, index + |a|, zeroPadText)
              case Err(e) => Err(e)
              case Ok(y) => Ok(x + y)
  {
    var pa := Processed(a, name, zeroPadText);
    var pb := Processed(b, name, zeroPadText);
    assert Processed(a + b, name, zeroPadText) == pa + pb;
    ScanAppend(a, pa, b, pb, GetBookLength(name), index);
  }

  /**
   * The error for the first line of the wrong width names its line number,
   * its length counting the terminator, and the book's width, once every
   * earlier line went through.
   */
  lemma FirstBadLineReported(good: seq<string>, bad: string, rest: seq<string>, name: string, index: nat, zeroPadText: string)
    requires ProcessLines(good, name, index, zeroPadText).Ok?
    requires |bad| != GetBookLength(name) + 1
    ensures ProcessLines(good + [bad] + rest, name, index, zeroPadText)
         == Err(LineLengthMismatch(index + |good|, |bad|, GetBookLength(name)))
  {
    assert good + [bad] + rest == good + ([bad] + rest);
    ProcessAppend(good, [bad] + rest, name, index, zeroPadText);
    GateFails([bad] + rest, name, index + |good|, zeroPadText);
  }

  /** A file whose first line has the wrong width fails on that line, whatever follows. */
  lemma GateFails(lines: seq<string>, name: string, index: nat, zeroPadText: string)
    requires |lines| > 0 && |lines[0]| != GetBookLength(name) + 1
    ensures ProcessLines(lines, name, index, zeroPadText) == Err(LineLengthMismatch(index, |lines[0]|, GetBookLength(name)))
  {
  }

  /**
   * The gate counts the terminator: a line of exactly the book's width with
   * no line break after it, as a file's last line may be, is rejected.
   */
  lemma TerminatorCounted(line: string, name: string, index: nat, zeroPadText: string)
    requires |line| == GetBookLength(name)
    ensures ProcessLines([line], name, index, zeroPadText) == Err(LineLengthMismatch(index, |line|, |line|))
  {
  }

  /**
   * An unknown book has width 0 and no layout: an empty file still yields
   * an empty result, any other file fails.
   */
  lemma UnknownBookFails(lines: seq<string>, name: string, index: nat, zeroPadText: string)
    requires !IsBookName(name)
    ensures |lines| == 0 ==> ProcessLines(lines, name, index, zeroPadText) == Ok([])
    ensures |lines| > 0 ==> ProcessLines(lines, name, index, zeroPadText).Err?
  {
  }

  /** Stripping a gated line with non-blank ends removes exactly its line break. */
  lemma StripDropsTerminator(line: string)
    requires |line| >= 2 && IsSpace(line[|line| - 1])
    requires !IsSpace(line[0]) && !IsSpace(line[|line| - 2])
    ensures Strip(line) == line[..|line| - 1]
  {
    var r := Strip(line);
    StripRemovesEnds(line);
    var i :| StrippedAt(line, r, i);
    assert i == 0;
    assert |r| >= |line| - 1;
    assert r == line[0..|r|];
  }

  /**
   * Columns are not shifted when a line's first and last columns are not
   * blank: the decoded fields are slices of the line, and laid end to end
   * they give back the line without its terminator.
   */
  lemma AcceptedLineReassembles(lines: seq<string>, name: string, index: nat, zeroPadText: string, i: nat)
    requires ProcessLines(lines, name, index, zeroPadText).Ok?
    requires i < |lines| && |lines[i]| >= 2 && IsSpace(lines[i][|lines[i]| - 1])
    requires !IsSpace(lines[i][0]) && !IsSpace(lines[i][|lines[i]| - 2])
    ensures IsBookName(name)
    ensures RawFrom(Strip(lines[i]), GetBookStructure(name).value, 0) == lines[i][..|lines[i]| - 1]
  {
    var line := lines[i];
    ScanShape(lines, Processed(lines, name, zeroPadText), GetBookLength(name), index);
    assert Processed(lines, name, zeroPadText)[i].Ok?;
    RegistryWellFormed(name);
    StripDropsTerminator(line);
    LineReassembles(Strip(line), GetBookStructure(name).value);
  }

  /** The legacy `process_file`: same gate and numbering, the legacy decoder and sum. */
  function LegacyProcessLine(line: string, name: string): (r: Result<Record, Failure>)
    ensures r.Ok? ==> IsBookName(name)
  {
    var layout :- GetBookStructure(name);
    var fields :- LegacyDecode(Strip(line), layout);
    LegacyCalculateTotals(fields, RetrieveKeysToSum(name))
  }

  function LegacyProcessed(lines: seq<string>, name: string): (r: seq<Result<Record, Failure>>)
    ensures |r| == |lines| && forall i :: 0 <= i < |lines| ==> r[i] == LegacyProcessLine(lines[i], name)
  {
    seq(|lines|, i requires 0 <= i < |lines| => LegacyProcessLine(lines[i], name))
  }

  function LegacyProcessLines(lines: seq<string>, name: string, index: nat): Result<seq<Keyed>, Failure>
  {
    Scan(lines, LegacyProcessed(lines, name), GetBookLength(name), index)
  }

  /** A line the legacy engine accepts is processed alike by the current one with the legacy zero-pad text. */
  lemma LegacyLineAgrees(line: string, name: string)
    requires LegacyProcessLine(line, name).Ok?
    ensures LegacyProcessLine(line, name) == ProcessLine(line, name, ZERO_PAD_SHORT_TEXT)
  {
    var layout := GetBookStructure(name).value;
    RegistryLegacyAgrees(name, Strip(line));
    RegistryTotalsAgree(name, Strip(line), ZERO_PAD_SHORT_TEXT);
  }

  /**
   * A file the legacy engine accepts is read alike by the current one with
   * the legacy zero-pad text: the carried decimal index and the KeyError on
   * a missing field never show on a registered layout.
   */
  lemma LegacyProcessAgrees(lines: seq<string>, name: string, index: nat)
    requires LegacyProcessLines(lines, name, index).Ok?
    ensures LegacyProcessLines(lines, name, index) == ProcessLines(lines, name, index, ZERO_PAD_SHORT_TEXT)
  {
    var legacy := LegacyProcessed(lines, name);
    var current := Processed(lines, name, ZERO_PAD_SHORT_TEXT);
    ScanShape(lines, legacy, GetBookLength(name), index);
    forall i | 0 <= i < |lines|
      ensures legacy[i] == current[i]
    {
      LegacyLineAgrees(lines[i], name);
    }
    assert legacy == current;
  }
}
