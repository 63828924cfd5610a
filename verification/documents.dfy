/**
 * The document-anomaly mapper: the document numbers of one book are read
 * from the merged lines, a validator names the invalid ones, and each line
 * holding an invalid number gets a replacement entry that swaps it for a
 * generic identifier of the same width.
 */
module Documents {
  import opened Wrappers
  import opened Failures
  import opened Numerals
  import opened Codec
  import opened Totals
  import opened Merge
  import opened Layouts
  import opened Patch
  import Text
  import Money

  /** Width of a document number as written back into the line. */
  const DOCUMENT_WIDTH: nat := 20

  /** The generic identifiers: one for numbers starting with '3', one for the rest. */
  const COMPANY_DOCUMENT := "30000000007"
  const PERSON_DOCUMENT := "20222222223"

  // ---------------------------------------------------------------------
  // Extraction

  /** The document of one merged line, read as `int(str(value).strip())`. */
  function DocumentOf(e: Entry, book: string, field: nat): Option<int>
    requires book in e.books
  {
    match ValueOf(e.books[book].fields, field)
    case None => None
    case Some(v) => ParseInt(v)
  }

  /**
   * `extract_documents_by_key`: one entry per merged line that holds the
   * book, in merged order; an absent or unreadable value is None.
   */
  function ExtractDocuments(m: Merged, book: string, field: nat): (r: seq<Option<int>>)
    ensures |r| <= |m|
    ensures (forall i :: 0 <= i < |m| ==> book !in m[i].books) ==> r == []
    decreases |m|
  {
    if |m| == 0 then []
    else
      var init := ExtractDocuments(m[..|m| - 1], book, field);
      var last := m[|m| - 1];
      if book in last.books then init + [DocumentOf(last, book, field)] else init
  }

  /**
   * When every merged line holds the book, the documents correspond to the
   * lines one for one, so position `k` of the list is line `k + 1`.
   */
  lemma {:induction false} ExtractPositional(m: Merged, book: string, field: nat)
    requires forall i :: 0 <= i < |m| ==> book in m[i].books
    ensures |ExtractDocuments(m, book, field)| == |m|
    ensures forall i :: 0 <= i < |m| ==> ExtractDocuments(m, book, field)[i] == DocumentOf(m[i], book, field)
    decreases |m|
  {
    if |m| > 0 {
      var init := m[..|m| - 1];
      ExtractPositional(init, book, field);
    }
  }

  // ---------------------------------------------------------------------
  // Replacement identifiers

  /**
   * `get_replacement_document_id`: the generic identifier chosen by the first
   * character, padded to 20; an empty text is an IndexError.
   */
  function ReplacementDocumentId(document: string): (r: Result<string, Failure>)
    ensures r.Err? <==> |document| == 0
    ensures r.Err? ==> r.error == EmptyDocument
    ensures r.Ok? ==> |r.value| == DOCUMENT_WIDTH
    ensures r.Ok? ==> r.value[9..] == if document[0] == '3' then COMPANY_DOCUMENT else PERSON_DOCUMENT
    ensures r.Ok? ==> forall k :: 0 <= k < 9 ==> r.value[k] == '0'
  {
    if |document| == 0 then Err(EmptyDocument)
    else
      var generic := if document[0] == '3' then COMPANY_DOCUMENT else PERSON_DOCUMENT;
      Ok(PadLeft(generic, DOCUMENT_WIDTH))
  }

  /** The two identifiers as written into a line. */
  lemma ReplacementIds(document: string)
    requires |document| > 0
    ensures document[0] == '3' ==> ReplacementDocumentId(document) == Ok("00000000030000000007")
    ensures document[0] != '3' ==> ReplacementDocumentId(document) == Ok("00000000020222222223")
  {
    var r := ReplacementDocumentId(document).value;
    assert r == r[..9] + r[9..];
    assert r[..9] == "000000000";
    if document[0] == '3' {
      assert "000000000" + COMPANY_DOCUMENT == "00000000030000000007";
    } else {
      assert "000000000" + PERSON_DOCUMENT == "00000000020222222223";
    }
  }

  /** `set_new_document_value`, the same rule written with `format_len_value`. */
  function SetNewDocumentValue(document: string): (r: Result<string, Failure>)
    ensures r.Ok? ==> |r.value| == DOCUMENT_WIDTH
  {
    if |document| == 0 then Err(EmptyDocument)
    else
      var generic := if document[0] == '3' then COMPANY_DOCUMENT else PERSON_DOCUMENT;
      Ok(PadLeft(generic, DOCUMENT_WIDTH))
  }

  /** The two versions of the replacement rule agree on every text. */
  lemma ReplacementRulesAgree(document: string)
    ensures SetNewDocumentValue(document) == ReplacementDocumentId(document)
  {
  }

  /** The original number as written back: `pad_left(str(doc), 20)`. */
  function OriginalText(doc: int): (r: string)
    ensures |r| >= DOCUMENT_WIDTH
  {
    PadLeft(IntToString(doc), DOCUMENT_WIDTH)
  }

  /** The replacement for a number: `str(doc)` is never empty, so the rule always applies. */
  function ReplacementText(doc: int): (r: string)
    ensures |r| == DOCUMENT_WIDTH
  {
    ReplacementDocumentId(IntToString(doc)).value
  }

  /** Numbers of at most 20 digits are written back at exactly the width of their replacement. */
  lemma OriginalWidth(doc: int)
    requires 0 <= doc < Pow10(DOCUMENT_WIDTH)
    ensures |OriginalText(doc)| == DOCUMENT_WIDTH == |ReplacementText(doc)|
  {
    Money.NatToStringLength(doc, DOCUMENT_WIDTH);
  }

  /** The padded original reads back as the number it came from. */
  lemma OriginalReadsBack(doc: int)
    requires 0 <= doc < Pow10(DOCUMENT_WIDTH)
    ensures ParseInt(OriginalText(doc)) == Some(doc)
  {
    var s := NatToString(doc);
    assert IntToString(doc) == s;
    NatToStringDigits(doc);
    Money.PadLeftValue(s, DOCUMENT_WIDTH);
    DigitTextParses(OriginalText(doc));
  }

  /** Digit text reads as its value: there is nothing to strip and no sign. */
  lemma DigitTextParses(t: string)
    requires |t| > 0 && AllDigits(t)
    ensures ParseInt(t) == Some(DigitsValue(t))
  {
    assert IsDigit(t[0]) && IsDigit(t[|t| - 1]);
    assert !Text.IsSpace(t[0]) && !Text.IsSpace(t[|t| - 1]);
    assert Text.Strip(t) == t;
    assert IntegerText(t);
  }

  // ---------------------------------------------------------------------
  // The invalid set

  /** `int(doc)` of every reported text, None where it raises. */
  function ParseAll(errs: seq<string>): (r: seq<Option<int>>)
    ensures |r| == |errs| && forall i :: 0 <= i < |errs| ==> r[i] == ParseInt(errs[i])
  {
    seq(|errs|, i requires 0 <= i < |errs| => ParseInt(errs[i]))
  }

  /** The first position holding None. */
  function FirstNone(ps: seq<Option<int>>): (r: Option<nat>)
    ensures r.None? <==> forall i :: 0 <= i < |ps| ==> ps[i].Some?
    ensures r.Some? ==> r.value < |ps| && ps[r.value].None? && forall j :: 0 <= j < r.value ==> ps[j].Some?
    decreases |ps|
  {
    if |ps| == 0 then None
    else if ps[0].None? then Some(0)
    else
      match FirstNone(ps[1..])
      case None =>
        assert forall i :: 1 <= i < |ps| ==> ps[i] == ps[1..][i - 1];
        None
      case Some(i) =>
        assert forall j :: 1 <= j <= i + 1 ==> ps[j] == ps[1..][j - 1];
        Some(i + 1)
  }

  /**
   * `set(int(doc) for doc in error_documents_strings)`: the numbers the
   * report's texts read as; the first text that is not an integer raises.
   */
  function InvalidSet(errs: seq<string>): (r: Result<set<int>, Failure>)
    ensures r.Ok? <==> forall i :: 0 <= i < |errs| ==> ParseInt(errs[i]).Some?
    ensures r.Ok? ==> forall d :: d in r.value <==> exists i :: 0 <= i < |errs| && ParseInt(errs[i]) == Some(d)
    ensures r.Err? ==> exists i :: && 0 <= i < |errs| && ParseInt(errs[i]).None? && r.error == NotANumber(errs[i])
                                   && forall j :: 0 <= j < i ==> ParseInt(errs[j]).Some?
  {
    var ps := ParseAll(errs);
    match FirstNone(ps)
    case Some(i) => Err(NotANumber(errs[i]))
    case None => Ok(set i | 0 <= i < |ps| && ps[i].Some? :: ps[i].value)
  }

  // ---------------------------------------------------------------------
  // Replacement entries

  /** Position `k` of the list holds a number the validator reported. */
  predicate Flagged(docs: seq<Option<int>>, invalid: set<int>, k: int) {
    0 <= k < |docs| && docs[k].Some? && docs[k].value in invalid
  }

  /** The flagged positions from `from` onwards, in ascending order: the `enumerate` loop's hits. */
  function FlaggedFrom(docs: seq<Option<int>>, invalid: set<int>, from: nat): (r: seq<nat>)
    requires from <= |docs|
    ensures forall j :: 0 <= j < |r| ==> from <= r[j] && Flagged(docs, invalid, r[j])
    ensures forall j, j' :: 0 <= j < j' < |r| ==> r[j] < r[j']
    ensures forall k :: from <= k < |docs| && Flagged(docs, invalid, k) ==> k in r
    decreases |docs| - from
  {
    if from == |docs| then []
    else
      var rest := FlaggedFrom(docs, invalid, from + 1);
      if Flagged(docs, invalid, from) then [from] + rest else rest
  }

  /** The entry for position `k`: its 1-based line, the replacement, the original. */
  function EntryAt(docs: seq<Option<int>>, k: nat): Replacement
    requires k < |docs| && docs[k].Some?
  {
    Replacement(k + 1, Some(ReplacementText(docs[k].value)), Some(OriginalText(docs[k].value)))
  }

  /** One entry per flagged position, in order. */
  function Entries(docs: seq<Option<int>>, invalid: set<int>): (r: seq<Replacement>)
    ensures var ps := FlaggedFrom(docs, invalid, 0);
      |r| == |ps| && forall j :: 0 <= j < |r| ==> r[j] == EntryAt(docs, ps[j])
  {
    var ps := FlaggedFrom(docs, invalid, 0);
    seq(|ps|, j requires 0 <= j < |ps| => EntryAt(docs, ps[j]))
  }

  /**
   * `build_replacement_entries`: one `(line, replacement, original)` per
   * position whose number the validator reported, in ascending line order.
   */
  function BuildReplacementEntries(docs: seq<Option<int>>, errs: seq<string>): (r: Result<seq<Replacement>, Failure>)
    ensures r.Ok? <==> InvalidSet(errs).Ok?
    ensures r.Err? ==> r.error == InvalidSet(errs).error
  {
    var invalid :- InvalidSet(errs);
    Ok(Entries(docs, invalid))
  }

  /** A line gets an entry exactly when its number was reported; a None position never does. */
  lemma EntriesCover(docs: seq<Option<int>>, invalid: set<int>, k: nat)
    requires k < |docs|
    ensures var es := Entries(docs, invalid);
      (exists j :: 0 <= j < |es| && es[j].line == k + 1) <==> Flagged(docs, invalid, k)
  {
    var ps := FlaggedFrom(docs, invalid, 0);
    var es := Entries(docs, invalid);
    if Flagged(docs, invalid, k) {
      var j :| 0 <= j < |ps| && ps[j] == k;
      assert es[j].line == k + 1;
    }
  }

  /** Each entry holds the generic identifier for its line's number and the padded original. */
  lemma EntriesContent(docs: seq<Option<int>>, invalid: set<int>, j: nat)
    requires j < |Entries(docs, invalid)|
    ensures var e := Entries(docs, invalid)[j];
      && 0 < e.line <= |docs| && docs[e.line - 1].Some? && docs[e.line - 1].value in invalid
      && e.newText == Some(ReplacementText(docs[e.line - 1].value))
      && e.oldText == Some(OriginalText(docs[e.line - 1].value))
  {
    var ps := FlaggedFrom(docs, invalid, 0);
    assert Flagged(docs, invalid, ps[j]);
  }

  /**
   * Every entry replaces a number by a text of its own width when the
   * numbers fit in 20 digits, so patching them in keeps each line's length.
   */
  lemma EntriesKeepWidth(docs: seq<Option<int>>, errs: seq<string>, lines: seq<string>)
    requires InvalidSet(errs).Ok?
    requires forall k :: 0 <= k < |docs| && docs[k].Some? ==> 0 <= docs[k].value < Pow10(DOCUMENT_WIDTH)
    ensures SameWidth(BuildReplacementEntries(docs, errs).value)
    ensures ApplyReplacements(lines, BuildReplacementEntries(docs, errs).value).Ok?
    ensures forall k :: 0 <= k < |lines| ==>
              |ApplyReplacements(lines, BuildReplacementEntries(docs, errs).value).value.lines[k]| == |lines[k]|
  {
    var invalid := InvalidSet(errs).value;
    var ps := FlaggedFrom(docs, invalid, 0);
    var es := BuildReplacementEntries(docs, errs).value;
    forall j | 0 <= j < |es|
      ensures es[j].newText.Some? && es[j].oldText.Some? && |es[j].oldText.value| > 0
              && |es[j].newText.value| == |es[j].oldText.value|
    {
      OriginalWidth(docs[ps[j]].value);
    }
    SameWidthPatchKeepsLengths(lines, es);
  }

  // ---------------------------------------------------------------------
  // The older twin in main.py

  /** A tuple in the order `get_indexed_error_documents` emits: `(line, original, replacement)`. */
  datatype IndexedDocument = IndexedDocument(line: int, original: string, replacement: string)

  function IndexedAt(docs: seq<Option<int>>, k: nat): IndexedDocument
    requires k < |docs| && docs[k].Some?
  {
    var d := docs[k].value;
    IndexedDocument(k + 1, PadLeft(IntToString(d), DOCUMENT_WIDTH), SetNewDocumentValue(IntToString(d)).value)
  }

  /** `get_indexed_error_documents`. */
  function IndexedErrorDocuments(docs: seq<Option<int>>, errs: seq<string>): (r: Result<seq<IndexedDocument>, Failure>)
    ensures r.Ok? <==> InvalidSet(errs).Ok?
  {
    var invalid :- InvalidSet(errs);
    var ps := FlaggedFrom(docs, invalid, 0);
    Ok(seq(|ps|, j requires 0 <= j < |ps| => IndexedAt(docs, ps[j])))
  }

  /** The tuple as the patcher reads it: `(line, new, old)` is `(line, original, replacement)` here. */
  function AsPatcherReads(t: IndexedDocument): Replacement {
    Replacement(t.line, Some(t.original), Some(t.replacement))
  }

  /** The mapper's tuple with its two texts swapped. */
  function Swapped(e: Replacement): Replacement {
    Replacement(e.line, e.oldText, e.newText)
  }

  /**
   * Both versions pick the same lines, but main.py puts the original before
   * the replacement: fed to the `(line, new, old)` patcher, its tuples would
   * write the original over the generic identifier.
   */
  lemma IndexedOrderReversed(docs: seq<Option<int>>, errs: seq<string>)
    ensures IndexedErrorDocuments(docs, errs).Ok? <==> BuildReplacementEntries(docs, errs).Ok?
    ensures IndexedErrorDocuments(docs, errs).Ok? ==>
              var a := IndexedErrorDocuments(docs, errs).value;
              var b := BuildReplacementEntries(docs, errs).value;
              |a| == |b| && forall j :: 0 <= j < |a| ==> AsPatcherReads(a[j]) == Swapped(b[j])
  {
    if InvalidSet(errs).Ok? {
      var ps := FlaggedFrom(docs, InvalidSet(errs).value, 0);
      forall j | 0 <= j < |ps| {
        ReplacementRulesAgree(IntToString(docs[ps[j]].value));
      }
    }
  }

  // ---------------------------------------------------------------------
  // Detection

  /**
   * `detect_and_prepare_error_documents`: the numbers of field 7 of the
   * book, the validator's report on them, and the entries built from both.
   * The validator is a parameter: any function from the list to the texts
   * it reports.
   */
  function DetectAndPrepare(m: Merged, book: string, validator: seq<Option<int>> -> seq<string>)
    : Result<seq<Replacement>, Failure>
  {
    var docs := ExtractDocuments(m, book, DOCUMENT_FIELD);
    BuildReplacementEntries(docs, validator(docs))
  }

  /**
   * When every merged line holds the book, line `k + 1` gets an entry
   * exactly when the validator reported the number read from that line.
   */
  lemma DetectedLines(m: Merged, book: string, validator: seq<Option<int>> -> seq<string>, k: nat)
    requires forall i :: 0 <= i < |m| ==> book in m[i].books
    requires k < |m|
    requires DetectAndPrepare(m, book, validator).Ok?
    ensures var docs := ExtractDocuments(m, book, DOCUMENT_FIELD);
            var es := DetectAndPrepare(m, book, validator).value;
      (exists j :: 0 <= j < |es| && es[j].line == k + 1)
      <==> (DocumentOf(m[k], book, DOCUMENT_FIELD).Some?
            && exists i :: 0 <= i < |validator(docs)| && ParseInt(validator(docs)[i]) == DocumentOf(m[k], book, DOCUMENT_FIELD))
  {
    var docs := ExtractDocuments(m, book, DOCUMENT_FIELD);
    ExtractPositional(m, book, DOCUMENT_FIELD);
    EntriesCover(docs, InvalidSet(validator(docs)).value, k);
    assert docs[k] == DocumentOf(m[k], book, DOCUMENT_FIELD);
  }

  lemma {:induction false} NoFlagsNoPositions(docs: seq<Option<int>>, invalid: set<int>, from: nat)
    requires from <= |docs| && forall d :: d !in invalid
    ensures FlaggedFrom(docs, invalid, from) == []
    decreases |docs| - from
  {
    if from < |docs| {
      NoFlagsNoPositions(docs, invalid, from + 1);
    }
  }

  /** A validator that reports nothing, as the detector does on an empty list or a failed call, yields no entries. */
  lemma NothingReportedNoEntries(m: Merged, book: string, validator: seq<Option<int>> -> seq<string>)
    requires validator(ExtractDocuments(m, book, DOCUMENT_FIELD)) == []
    ensures DetectAndPrepare(m, book, validator) == Ok([])
  {
    var docs := ExtractDocuments(m, book, DOCUMENT_FIELD);
    var invalid := InvalidSet([]).value;
    assert forall d :: d !in invalid;
    NoFlagsNoPositions(docs, invalid, 0);
  }
}
