/**
 * The difference formatter and the line patcher: detected differences
 * written back as fixed-width amount text, and text substituted on
 * numbered lines of a file held as its sequence of lines.
 */
module Patch {
  import opened Wrappers
  import opened Failures
  import opened Text
  import opened Numerals
  import opened Layouts
  import opened Detect
  import opened Money

  /** What reaches `format_difference`: a 3-tuple `(line, computed, declared)`, or anything else. */
  datatype DiffItem = Triple(line: int, computed: Value, declared: Value) | Malformed

  /**
   * A replacement `(line_num, new_value, old_value)` after `int(line_num)`;
   * a text is None where the amount encoder returned None.
   */
  datatype Replacement = Replacement(line: int, newText: Option<string>, oldText: Option<string>)

  /** `format_difference` / `format_difference_tuple`: the line kept, both amounts encoded at width 15. */
  function FormatDifference(d: DiffItem): (r: Result<Replacement, Failure>)
    ensures r.Err? <==> d.Malformed?
    ensures r.Err? ==> r.error == MalformedDifference
    ensures r.Ok? ==> r.value.line == d.line
    ensures r.Ok? ==> (r.value.newText.Some? <==> d.computed.Cents?) && (r.value.oldText.Some? <==> d.declared.Cents?)
    ensures r.Ok? && r.value.newText.Some? ==> |r.value.newText.value| >= AMOUNT_WIDTH
    ensures r.Ok? && r.value.oldText.Some? ==> |r.value.oldText.value| >= AMOUNT_WIDTH
  {
    match d
    case Malformed => Err(MalformedDifference)
    case Triple(line, computed, declared) =>
      Ok(Replacement(line, FormatNumberValue(computed, AMOUNT_WIDTH), FormatNumberValue(declared, AMOUNT_WIDTH)))
  }

  /**
   * A difference between two amounts that fit the field is written as two
   * 15-digit texts that the decoder reads back as the same amounts.
   */
  lemma FormattedAmountsDecode(line: int, computed: int, declared: int)
    requires 0 <= computed < Pow10(AMOUNT_WIDTH) && 0 <= declared < Pow10(AMOUNT_WIDTH)
    ensures var r := FormatDifference(Triple(line, Cents(computed), Cents(declared)));
      && r.Ok? && r.value.newText.Some? && r.value.oldText.Some?
      && |r.value.newText.value| == AMOUNT_WIDTH && |r.value.oldText.value| == AMOUNT_WIDTH
      && Codec.FormatFieldValue(r.value.newText.value, 2) == CentsText(computed)
      && Codec.FormatFieldValue(r.value.oldText.value, 2) == CentsText(declared)
  {
    EncodeDecodeRoundTrip(computed);
    EncodeDecodeRoundTrip(declared);
  }

  /** `format_differences`: each item formatted, in order; the first malformed one raises. */
  function FormatDifferences(ds: seq<DiffItem>): (r: Result<seq<Replacement>, Failure>)
    ensures r.Ok? <==> forall i :: 0 <= i < |ds| ==> ds[i].Triple?
    ensures r.Err? ==> r.error == MalformedDifference
    ensures r.Ok? ==> |r.value| == |ds| && forall i :: 0 <= i < |ds| ==> r.value[i] == FormatDifference(ds[i]).value
    decreases |ds|
  {
    if |ds| == 0 then Ok([])
    else
      var head :- FormatDifference(ds[0]);
      var tail :- FormatDifferences(ds[1..]);
      assert forall i :: 1 <= i < |ds| ==> ds[i] == ds[1..][i - 1];
      Ok([head] + tail)
  }

  /** A detected difference as the 3-tuple the formatter receives. */
  function AsItem(d: Difference<int>): DiffItem {
    Triple(d.line, Cents(d.computed), Cents(d.declared))
  }

  function AsItems(ds: seq<Difference<int>>): (r: seq<DiffItem>)
    ensures |r| == |ds| && forall i :: 0 <= i < |ds| ==> r[i] == AsItem(ds[i])
  {
    seq(|ds|, i requires 0 <= i < |ds| => AsItem(ds[i]))
  }

  /** `format_total_differences`: the detected differences of field 9, formatted. */
  function FormatTotalDifferences(m: Merge.Merged, book: string): Result<seq<Replacement>, Failure> {
    var ds :- DetectTotalDifferences(m, book, TOTAL_FIELD, ONE_PESO);
    FormatDifferences(AsItems(ds))
  }

  /**
   * Formatting never fails on detected differences: each one becomes a
   * replacement of its declared amount's text by its computed amount's text,
   * on the same line, in the same order.
   */
  lemma FormatTotalsShape(m: Merge.Merged, book: string)
    ensures FormatTotalDifferences(m, book).Ok? <==> DetectTotalDifferences(m, book, TOTAL_FIELD, ONE_PESO).Ok?
    ensures FormatTotalDifferences(m, book).Err? ==>
              FormatTotalDifferences(m, book).error == DetectTotalDifferences(m, book, TOTAL_FIELD, ONE_PESO).error
    ensures FormatTotalDifferences(m, book).Ok? ==>
              var ds := DetectTotalDifferences(m, book, TOTAL_FIELD, ONE_PESO).value;
              var rs := FormatTotalDifferences(m, book).value;
              |rs| == |ds| && forall i :: 0 <= i < |ds| ==>
                rs[i] == Replacement(ds[i].line, FormatNumberValue(Cents(ds[i].computed), AMOUNT_WIDTH),
                                     FormatNumberValue(Cents(ds[i].declared), AMOUNT_WIDTH))
  {
  }

  // ---------------------------------------------------------------------
  // The line patcher

  /** Why a replacement was skipped, as the patcher's warnings report it. */
  datatype Warning = IndexOutOfRange(index: int) | TextNotFound(line: int, text: string)

  /** The patched lines, the number of replacements made and the warnings, in order. */
  datatype PatchOutcome = PatchOutcome(lines: seq<string>, count: nat, warnings: seq<Warning>)

  /**
   * One pass of the patch loop: a line number outside 1 .. n and an old text
   * not on the line are skipped with a warning; a hit replaces every
   * occurrence. A None text on a line in range is a TypeError.
   */
  function PatchStep(lines: seq<string>, e: Replacement): (r: Result<(seq<string>, Option<Warning>), Failure>)
    ensures r.Ok? ==> |r.value.0| == |lines|
    ensures r.Ok? && r.value.1.Some? ==> r.value.0 == lines
    ensures r.Ok? ==> forall k :: 0 <= k < |lines| && k != e.line - 1 ==> r.value.0[k] == lines[k]
    ensures !(0 < e.line <= |lines|) ==> r == Ok((lines, Some(IndexOutOfRange(e.line - 1))))
    ensures r.Err? ==> r.error == NoneOperand
  {
    var i := e.line - 1;
    if 0 <= i < |lines| then
      match e.oldText
      case None => Err(NoneOperand)
      case Some(target) =>
        if Contains(target, lines[i]) then
          match e.newText
          case None => Err(NoneOperand)
          case Some(repl) => Ok((lines[i := ReplaceAll(lines[i], target, repl)], None))
        else Ok((lines, Some(TextNotFound(e.line, target))))
    else Ok((lines, Some(IndexOutOfRange(i))))
  }

  /** The warnings one step adds. */
  function Warned(w: Option<Warning>): seq<Warning> {
    if w.Some? then [w.value] else []
  }

  /**
   * The loop of `replace_values_in_file` and `write_replacements`: the
   * replacements applied in list order, each to the lines the previous ones
   * left.
   */
  function ApplyReplacements(lines: seq<string>, es: seq<Replacement>): (r: Result<PatchOutcome, Failure>)
    ensures r.Ok? ==> |r.value.lines| == |lines|
    ensures r.Ok? ==> r.value.count + |r.value.warnings| == |es|
    ensures r.Ok? ==> forall k :: 0 <= k < |lines| && (forall j :: 0 <= j < |es| ==> es[j].line != k + 1) ==>
                        r.value.lines[k] == lines[k]
    decreases |es|
  {
    if |es| == 0 then Ok(PatchOutcome(lines, 0, []))
    else
      var (next, w) :- PatchStep(lines, es[0]);
      var rest :- ApplyReplacements(next, es[1..]);
      assert forall j :: 1 <= j < |es| ==> es[j] == es[1..][j - 1];
      Ok(PatchOutcome(rest.lines, rest.count + (if w.None? then 1 else 0), Warned(w) + rest.warnings))
  }

  /** Replacements whose two texts are both present never raise. */
  predicate AllTexts(es: seq<Replacement>) {
    forall j :: 0 <= j < |es| ==> es[j].newText.Some? && es[j].oldText.Some?
  }

  lemma {:induction false} PatchNeverFails(lines: seq<string>, es: seq<Replacement>)
    requires AllTexts(es)
    ensures ApplyReplacements(lines, es).Ok?
    decreases |es|
  {
    if |es| > 0 {
      var step := PatchStep(lines, es[0]);
      assert step.Ok?;
      assert AllTexts(es[1..]) by {
        assert forall j :: 0 <= j < |es[1..]| ==> es[1..][j] == es[j + 1];
      }
      PatchNeverFails(step.value.0, es[1..]);
    }
  }

  /** One replacement on its own: a hit, a missing text and an out-of-range line. */
  lemma SingleReplacement(lines: seq<string>, line: int, repl: string, target: string)
    ensures var r := ApplyReplacements(lines, [Replacement(line, Some(repl), Some(target))]);
      && r.Ok?
      && (!(0 < line <= |lines|) ==> r.value == PatchOutcome(lines, 0, [IndexOutOfRange(line - 1)]))
      && (0 < line <= |lines| && !Contains(target, lines[line - 1]) ==>
            r.value == PatchOutcome(lines, 0, [TextNotFound(line, target)]))
      && (0 < line <= |lines| && Contains(target, lines[line - 1]) ==>
            r.value == PatchOutcome(lines[line - 1 := ReplaceAll(lines[line - 1], target, repl)], 1, []))
  {
    var es := [Replacement(line, Some(repl), Some(target))];
    var step := PatchStep(lines, es[0]);
    assert es[1..] == [];
    assert ApplyReplacements(step.value.0, es[1..]) == Ok(PatchOutcome(step.value.0, 0, []));
  }

  /** The outcome of the rest of the loop, with one step's count and warning put in front. */
  function Prepend(w: Option<Warning>, r: Result<PatchOutcome, Failure>): Result<PatchOutcome, Failure> {
    match r
    case Err(e) => Err(e)
    case Ok(rest) => Ok(PatchOutcome(rest.lines, rest.count + (if w.None? then 1 else 0), Warned(w) + rest.warnings))
  }

  /** The outcome of a second batch `r`, after a first batch that ended in `ra`. */
  function Chain(ra: PatchOutcome, r: Result<PatchOutcome, Failure>): Result<PatchOutcome, Failure> {
    match r
    case Err(e) => Err(e)
    case Ok(rb) => Ok(PatchOutcome(rb.lines, ra.count + rb.count, ra.warnings + rb.warnings))
  }

  lemma ApplyUnfold(lines: seq<string>, es: seq<Replacement>)
    requires |es| > 0 && PatchStep(lines, es[0]).Ok?
    ensures ApplyReplacements(lines, es)
         == Prepend(PatchStep(lines, es[0]).value.1, ApplyReplacements(PatchStep(lines, es[0]).value.0, es[1..]))
  {
  }

  lemma PrependChain(w: Option<Warning>, rest: PatchOutcome, r: Result<PatchOutcome, Failure>)
    ensures Prepend(w, Chain(rest, r)) == Chain(Prepend(w, Ok(rest)).value, r)
  {
    if r.Ok? {
      assert Warned(w) + (rest.warnings + r.value.warnings) == (Warned(w) + rest.warnings) + r.value.warnings;
    }
  }

  /**
   * Replacements are applied in list order: patching with `a` and then `b`
   * is patching with `a + b`, the counts added and the warnings concatenated.
   */
  lemma {:induction false} PatchAppend(lines: seq<string>, a: seq<Replacement>, b: seq<Replacement>)
    requires ApplyReplacements(lines, a).Ok?
    ensures ApplyReplacements(lines, a + b)
         == Chain(ApplyReplacements(lines, a).value, ApplyReplacements(ApplyReplacements(lines, a).value.lines, b))
    decreases |a|
  {
    if |a| == 0 {
      assert a + b == b;
      var rb := ApplyReplacements(lines, b);
      if rb.Ok? {
        assert [] + rb.value.warnings == rb.value.warnings;
      }
    } else {
      var ab := a + b;
      assert ab[0] == a[0];
      assert ab[1..] == a[1..] + b;
      var step := PatchStep(lines, a[0]);
      var next := step.value.0;
      ApplyUnfold(lines, a);
      ApplyUnfold(lines, ab);
      PatchAppend(next, a[1..], b);
      var rest := ApplyReplacements(next, a[1..]).value;
      PrependChain(step.value.1, rest, ApplyReplacements(rest.lines, b));
    }
  }

  /** All replacements keep their text's width. */
  predicate SameWidth(es: seq<Replacement>) {
    forall j :: 0 <= j < |es| ==>
      es[j].newText.Some? && es[j].oldText.Some? && |es[j].oldText.value| > 0
      && |es[j].newText.value| == |es[j].oldText.value|
  }

  /**
   * Replacing amounts or document numbers by text of the same width keeps
   * every line's length, so the patched file still passes the width gate.
   */
  lemma {:induction false} SameWidthPatchKeepsLengths(lines: seq<string>, es: seq<Replacement>)
    requires SameWidth(es)
    ensures ApplyReplacements(lines, es).Ok?
    ensures forall k :: 0 <= k < |lines| ==> |ApplyReplacements(lines, es).value.lines[k]| == |lines[k]|
    decreases |es|
  {
    PatchNeverFails(lines, es);
    if |es| > 0 {
      StepKeepsLengths(lines, es[0]);
      var next := PatchStep(lines, es[0]).value.0;
      assert SameWidth(es[1..]) by {
        assert forall j :: 0 <= j < |es[1..]| ==> es[1..][j] == es[j + 1];
      }
      SameWidthPatchKeepsLengths(next, es[1..]);
      ApplyUnfold(lines, es);
    }
  }

  /** One same-width replacement succeeds and keeps every line's length. */
  lemma StepKeepsLengths(lines: seq<string>, e: Replacement)
    requires SameWidth([e])
    ensures PatchStep(lines, e).Ok?
    ensures forall k :: 0 <= k < |lines| ==> |PatchStep(lines, e).value.0[k]| == |lines[k]|
  {
    assert [e][0] == e;
    var i := e.line - 1;
    if 0 <= i < |lines| && Contains(e.oldText.value, lines[i]) {
      SameWidthReplaceKeepsLength(lines[i], e.oldText.value, e.newText.value);
    }
  }

  // ---------------------------------------------------------------------
  // The legacy patcher

  /**
   * One pass of the legacy loop, which has no range check: `lines[int(line_num) - 1]`
   * follows Python indexing, so 0 and negative numbers count from the end,
   * and anything past either end is an IndexError.
   */
  function LegacyPatchStep(lines: seq<string>, e: Replacement): (r: Result<seq<string>, Failure>)
    ensures r.Ok? ==> |r.value| == |lines|
    ensures (e.line - 1 >= |lines| || e.line - 1 < -|lines|) ==> r == Err(LineOutOfRange(e.line - 1))
    ensures r.Err? ==> r.error == LineOutOfRange(e.line - 1) || r.error == NoneOperand
  {
    var i := e.line - 1;
    if i >= |lines| || i < -|lines| then Err(LineOutOfRange(i))
    else
      var k := if i < 0 then |lines| + i else i;
      match e.oldText
      case None => Err(NoneOperand)
      case Some(target) =>
        if Contains(target, lines[k]) then
          match e.newText
          case None => Err(NoneOperand)
          case Some(repl) => Ok(lines[k := ReplaceAll(lines[k], target, repl)])
        else Ok(lines)
  }

  /** The legacy `replace_values_in_file` loop. */
  function LegacyPatch(lines: seq<string>, es: seq<Replacement>): (r: Result<seq<string>, Failure>)
    ensures r.Ok? ==> |r.value| == |lines|
    ensures r.Err? ==> r.error.LineOutOfRange? || r.error == NoneOperand
    decreases |es|
  {
    if |es| == 0 then Ok(lines)
    else
      var next :- LegacyPatchStep(lines, es[0]);
      LegacyPatch(next, es[1..])
  }

  predicate InRange(lines: seq<string>, es: seq<Replacement>) {
    forall j :: 0 <= j < |es| ==> 0 < es[j].line <= |lines|
  }

  /**
   * On line numbers within 1 .. n the legacy patcher does what the current
   * one does: same failures, same lines.
   */
  lemma {:induction false} LegacyPatchAgrees(lines: seq<string>, es: seq<Replacement>)
    requires InRange(lines, es)
    ensures LegacyPatch(lines, es).Ok? <==> ApplyReplacements(lines, es).Ok?
    ensures LegacyPatch(lines, es).Ok? ==> LegacyPatch(lines, es).value == ApplyReplacements(lines, es).value.lines
    decreases |es|
  {
    if |es| > 0 {
      var step := PatchStep(lines, es[0]);
      assert LegacyPatchStep(lines, es[0]) == (if step.Ok? then Ok(step.value.0) else Err(step.error));
      if step.Ok? {
        assert InRange(step.value.0, es[1..]) by {
          assert forall j :: 0 <= j < |es[1..]| ==> es[1..][j] == es[j + 1];
        }
        LegacyPatchAgrees(step.value.0, es[1..]);
      }
    }
  }

  /** Line number 0 reaches the legacy patcher as index -1: it patches the last line. */
  lemma LegacyLineZeroPatchesLast(lines: seq<string>, repl: string, target: string)
    requires |lines| > 0 && Contains(target, lines[|lines| - 1])
    ensures LegacyPatch(lines, [Replacement(0, Some(repl), Some(target))])
         == Ok(lines[|lines| - 1 := ReplaceAll(lines[|lines| - 1], target, repl)])
    ensures ApplyReplacements(lines, [Replacement(0, Some(repl), Some(target))]).Ok?
    ensures ApplyReplacements(lines, [Replacement(0, Some(repl), Some(target))]).value.lines == lines
  {
    SingleReplacement(lines, 0, repl, target);
    var es := [Replacement(0, Some(repl), Some(target))];
    assert es[1..] == [];
  }

  // ---------------------------------------------------------------------
  // Output file names

  /** The text after the last '/': `path.split('/')[-1]` and `os.path.basename`. */
  function BaseName(path: string): (r: string)
    ensures |r| <= |path| && r == path[|path| - |r|..]
    ensures forall k :: 0 <= k < |r| ==> r[k] != '/'
    ensures |r| < |path| ==> path[|path| - |r| - 1] == '/'
    decreases |path|
  {
    if |path| == 0 || path[|path| - 1] == '/' then ""
    else BaseName(path[..|path| - 1]) + [path[|path| - 1]]
  }

  /** `name.split('.')[0]`: the text before the first '.'. */
  function FirstDotStem(s: string): (r: string)
    ensures |r| <= |s| && r == s[..|r|]
    ensures forall k :: 0 <= k < |r| ==> r[k] != '.'
    ensures |r| < |s| ==> s[|r|] == '.'
    decreases |s|
  {
    if |s| == 0 || s[0] == '.' then ""
    else [s[0]] + FirstDotStem(s[1..])
  }

  const MODIFIED_SUFFIX := "_modificated"
  const DEFAULT_EXT := ".txt"

  /** The output file name for a stem and an extension, `.txt` when there is none. */
  function Renamed(stem: string, ext: string): string {
    stem + MODIFIED_SUFFIX + (if ext == [] then DEFAULT_EXT else ext)
  }

  /** The legacy and `replace_values_in_file` name: the stem up to the first dot, always `.txt`. */
  function FirstDotName(outputPath: string, fileName: string): string {
    outputPath + "/" + Renamed(FirstDotStem(BaseName(fileName)), [])
  }

  /** The index of the last occurrence of `c`, as `rfind`. */
  function LastIndex(s: string, c: char): (r: Option<nat>)
    ensures r.Some? ==> r.value < |s| && s[r.value] == c && forall k :: r.value < k < |s| ==> s[k] != c
    ensures r.None? ==> forall k :: 0 <= k < |s| ==> s[k] != c
    decreases |s|
  {
    if |s| == 0 then None
    else if s[|s| - 1] == c then Some(|s| - 1)
    else LastIndex(s[..|s| - 1], c)
  }

  predicate AllDots(s: string) {
    forall k :: 0 <= k < |s| ==> s[k] == '.'
  }

  /**
   * `os.path.splitext` of a base name: split at the last '.', unless every
   * character before it is a '.', as in ".profile".
   */
  function SplitExt(base: string): (r: (string, string))
    ensures r.0 + r.1 == base
    ensures r.1 == [] || (r.1[0] == '.' && !AllDots(r.0) && forall k :: 1 <= k < |r.1| ==> r.1[k] != '.')
  {
    match LastIndex(base, '.')
    case Some(d) =>
      if !AllDots(base[..d]) then
        assert base[..d] + base[d..] == base;
        (base[..d], base[d..])
      else (base, [])
    case None => (base, [])
  }

  /** `os.path.join` of a directory and a name that does not start with '/'. */
  function JoinPath(dir: string, name: string): (r: string)
    ensures (|dir| == 0 || dir[|dir| - 1] == '/') ==> r == dir + name
    ensures (|dir| > 0 && dir[|dir| - 1] != '/') ==> r == dir + "/" + name
  {
    if |dir| == 0 || dir[|dir| - 1] == '/' then dir + name else dir + "/" + name
  }

  /** The `write_replacements` name: `splitext` of the base name, the extension kept or `.txt`. */
  function SplitextName(outputPath: string, fileName: string): string {
    var (name, ext) := SplitExt(BaseName(fileName));
    JoinPath(outputPath, Renamed(name, ext))
  }

  predicate Lacks(s: string, c: char) {
    forall k :: 0 <= k < |s| ==> s[k] != c
  }

  /** The base name of `dir/base` is `base` when `base` holds no '/'. */
  lemma {:induction false} BaseNameOfJoin(dir: string, base: string)
    requires Lacks(base, '/')
    ensures BaseName(dir + "/" + base) == base
    decreases |base|
  {
    var p := dir + "/" + base;
    if |base| == 0 {
      assert p[|p| - 1] == '/';
    } else {
      var init := base[..|base| - 1];
      assert p[..|p| - 1] == dir + "/" + init;
      BaseNameOfJoin(dir, init);
      assert init + [base[|base| - 1]] == base;
    }
  }

  /** The stem of `s.t`, with no dot in `s`, is `s`; a name with no dot is its own stem. */
  lemma {:induction false} FirstDotStemOf(s: string, t: string, dotted: bool)
    requires Lacks(s, '.')
    ensures FirstDotStem(s + (if dotted then "." + t else "")) == s
    decreases |s|
  {
    var n := s + (if dotted then "." + t else "");
    if |s| > 0 {
      assert n[1..] == s[1..] + (if dotted then "." + t else "");
      FirstDotStemOf(s[1..], t, dotted);
      assert [s[0]] + s[1..] == s;
    }
  }

  /** The last dot of `s.t`, with no dot in `t`, is the one after `s`. */
  lemma LastDotOf(s: string, t: string)
    requires Lacks(t, '.')
    ensures LastIndex(s + "." + t, '.') == Some(|s|)
  {
    var n := s + "." + t;
    DotAfter(s, t, n);
    LastIndexAt(n, '.', |s|);
  }

  lemma DotAfter(s: string, t: string, n: string)
    requires Lacks(t, '.') && n == s + "." + t
    ensures |s| < |n| && n[|s|] == '.' && forall k :: |s| < k < |n| ==> n[k] != '.'
  {
    forall k | |s| < k < |n|
      ensures n[k] != '.'
    {
      assert n[k] == t[k - |s| - 1];
    }
  }

  /** The last occurrence is the one with none after it. */
  lemma LastIndexAt(n: string, c: char, i: nat)
    requires i < |n| && n[i] == c && forall k :: i < k < |n| ==> n[k] != c
    ensures LastIndex(n, c) == Some(i)
  {
  }

  /** Both naming rules give the same file for a base name without a dot. */
  lemma NamesAgreeWithoutDot(outputPath: string, fileName: string)
    requires |outputPath| > 0 && outputPath[|outputPath| - 1] != '/'
    requires Lacks(BaseName(fileName), '.')
    ensures SplitextName(outputPath, fileName) == FirstDotName(outputPath, fileName)
  {
    var base := BaseName(fileName);
    assert LastIndex(base, '.').None?;
    FirstDotStemOf(base, "", false);
    assert SplitExt(base) == (base, []);
  }

  lemma LacksAround(a: string, sep: char, b: string, c: char)
    requires Lacks(a, c) && sep != c && Lacks(b, c)
    ensures Lacks(a + [sep] + b, c)
  {
    var n := a + [sep] + b;
    assert forall k :: |a| < k < |n| ==> n[k] == b[k - |a| - 1];
  }

  /** The legacy rule cuts `dir/s.t` at the first dot. */
  lemma FirstDotNameOfDotted(outputPath: string, dir: string, stem: string, rest: string)
    requires Lacks(stem, '.') && Lacks(stem, '/') && Lacks(rest, '/')
    ensures FirstDotName(outputPath, dir + "/" + stem + "." + rest) == outputPath + "/" + Renamed(stem, [])
  {
    var base := stem + "." + rest;
    JoinDotted(dir, stem, rest, base, dir + "/" + stem + "." + rest);
    BaseNameOfJoin(dir, base);
    DottedStem(stem, rest, base);
  }

  lemma JoinDotted(dir: string, stem: string, rest: string, base: string, path: string)
    requires Lacks(stem, '/') && Lacks(rest, '/')
    requires base == stem + "." + rest && path == dir + "/" + stem + "." + rest
    ensures path == dir + "/" + base && Lacks(base, '/')
  {
    LacksAround(stem, '.', rest, '/');
  }

  lemma DottedStem(stem: string, rest: string, base: string)
    requires Lacks(stem, '.') && base == stem + "." + rest
    ensures FirstDotStem(base) == stem
  {
    assert base == stem + ("." + rest);
    FirstDotStemOf(stem, rest, true);
  }

  lemma SplitExtOfDotted(stem: string, ext: string)
    requires !AllDots(stem) && Lacks(ext, '.')
    ensures SplitExt(stem + "." + ext) == (stem, "." + ext)
  {
    var base := stem + "." + ext;
    LastDotOf(stem, ext);
    assert base[..|stem|] == stem;
    assert base[|stem|..] == "." + ext;
  }

  /** The current rule cuts `dir/s.t` at the last dot, keeping the extension `.t`. */
  lemma SplitextNameOfDotted(outputPath: string, dir: string, stem: string, ext: string)
    requires |outputPath| > 0 && outputPath[|outputPath| - 1] != '/'
    requires Lacks(stem, '/') && !AllDots(stem) && Lacks(ext, '/') && Lacks(ext, '.')
    ensures SplitextName(outputPath, dir + "/" + stem + "." + ext)
         == outputPath + "/" + Renamed(stem, "." + ext)
  {
    var base := stem + "." + ext;
    LacksAround(stem, '.', ext, '/');
    assert dir + "/" + stem + "." + ext == dir + "/" + base;
    BaseNameOfJoin(dir, base);
    SplitExtOfDotted(stem, ext);
  }

  predicate PlainPart(s: string) {
    Lacks(s, '/') && Lacks(s, '.')
  }

  lemma TwoDotsFirst(outputPath: string, dir: string, stem: string, middle: string, ext: string)
    requires PlainPart(stem) && PlainPart(middle) && PlainPart(ext)
    ensures FirstDotName(outputPath, dir + "/" + stem + "." + middle + "." + ext)
         == outputPath + "/" + Renamed(stem, [])
  {
    LacksAround(middle, '.', ext, '/');
    assert dir + "/" + stem + "." + middle + "." + ext == dir + "/" + stem + "." + (middle + "." + ext);
    FirstDotNameOfDotted(outputPath, dir, stem, middle + "." + ext);
  }

  lemma TwoDotsSplitext(outputPath: string, dir: string, stem: string, middle: string, ext: string)
    requires |outputPath| > 0 && outputPath[|outputPath| - 1] != '/'
    requires |stem| > 0 && PlainPart(stem) && PlainPart(middle) && PlainPart(ext)
    ensures SplitextName(outputPath, dir + "/" + stem + "." + middle + "." + ext)
         == outputPath + "/" + Renamed(stem + "." + middle, "." + ext)
  {
    var long := stem + "." + middle;
    LacksAround(stem, '.', middle, '/');
    assert long[0] == stem[0] != '.';
    assert dir + "/" + stem + "." + middle + "." + ext == dir + "/" + long + "." + ext;
    SplitextNameOfDotted(outputPath, dir, long, ext);
  }

  /**
   * With two dots in the base name, as `libro.2024.txt`, the rules differ:
   * the legacy one cuts at the first dot and always writes `.txt`, the
   * current one cuts at the last dot and keeps the extension.
   */
  lemma NamesDifferOnDottedStem(outputPath: string, dir: string, stem: string, middle: string, ext: string)
    requires |outputPath| > 0 && outputPath[|outputPath| - 1] != '/'
    requires |stem| > 0 && PlainPart(stem) && PlainPart(middle) && PlainPart(ext)
    ensures FirstDotName(outputPath, dir + "/" + stem + "." + middle + "." + ext)
         != SplitextName(outputPath, dir + "/" + stem + "." + middle + "." + ext)
  {
    TwoDotsFirst(outputPath, dir, stem, middle, ext);
    TwoDotsSplitext(outputPath, dir, stem, middle, ext);
    RenamedDiffer(outputPath, stem, middle, ext);
  }

  lemma RenamedDiffer(outputPath: string, stem: string, middle: string, ext: string)
    ensures outputPath + "/" + Renamed(stem, []) != outputPath + "/" + Renamed(stem + "." + middle, "." + ext)
  {
    var at := |outputPath| + 1 + |stem|;
    assert (outputPath + "/" + Renamed(stem, []))[at] == MODIFIED_SUFFIX[0];
    assert (outputPath + "/" + Renamed(stem + "." + middle, "." + ext))[at] == '.';
  }

  // ---------------------------------------------------------------------
  // The two writers

  /**
   * `replace_values_in_file`: the differences are formatted before the file
   * is read, then patched; the result is the output name and the outcome.
   * A missing file is `FileMissing`.
   */
  function ReplaceValuesInFile(file: Option<seq<string>>, fileName: string, outputPath: string, ds: seq<DiffItem>)
    : (r: Result<(string, PatchOutcome), Failure>)
    ensures r.Ok? ==> && file.Some? && FormatDifferences(ds).Ok?
                      && ApplyReplacements(file.value, FormatDifferences(ds).value)
                         == Ok(r.value.1)
                      && r.value.0 == FirstDotName(outputPath, fileName)
    ensures (exists i :: 0 <= i < |ds| && ds[i].Malformed?) ==> r == Err(MalformedDifference)
    ensures FormatDifferences(ds).Ok? && file.None? ==> r == Err(FileMissing)
  {
    var es :- FormatDifferences(ds);
    if file.None? then Err(FileMissing)
    else
      var outcome :- ApplyReplacements(file.value, es);
      Ok((FirstDotName(outputPath, fileName), outcome))
  }

  /**
   * `write_replacements`: the replacements are used as given; a missing
   * source file returns early, here None, with nothing written.
   */
  function WriteReplacements(file: Option<seq<string>>, fileName: string, outputPath: string, es: seq<Replacement>)
    : (r: Option<Result<(string, PatchOutcome), Failure>>)
    ensures r.None? <==> file.None?
    ensures r.Some? && r.value.Ok? ==> r.value.value.0 == SplitextName(outputPath, fileName)
    ensures r.Some? ==> (r.value.Ok? <==> ApplyReplacements(file.value, es).Ok?)
    ensures r.Some? && r.value.Ok? ==> r.value.value.1 == ApplyReplacements(file.value, es).value
  {
    match file
    case None => None
    case Some(lines) =>
      Some(match ApplyReplacements(lines, es)
           case Err(e) => Err(e)
           case Ok(outcome) => Ok((SplitextName(outputPath, fileName), outcome)))
  }
}
