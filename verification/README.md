# AFIP IVA book checker — a Dafny model

This project models the reconciliation core of the AFIP "Libro IVA Digital"
checker. The checker reads two fixed-width export books that pair up line by
line: a voucher book (`ventas_cbte` or `compras_cbte`) and its rate-breakdown
book (`ventas_alicuota` or `compras_alicuota`). It decodes each line against
the book's field layout, merges the two books by line number, and sums the
listed amount fields of both. It then flags every line whose declared total
differs from the computed sum by more than one peso. Flagged totals, and
document IDs that the AFIP validator reports, are patched back into a copy of
the first book without changing any line's width.

The model is functional. Lines are `string`s and a file is a sequence of
lines, or `None` when the file is missing. Amounts are integer cents. Every
error the code raises is a `Failure` value in a `Result`. The modules follow
the program's structure:

- `Wrappers`, `Failures`: `Option`, `Result`, and the `Failure` kinds for every error the code raises.
- `Text`, `Numerals`: `strip`, `replace`, substring search, `int()` and `str()`.
- `Layouts`: the four field layouts, their widths and sum keys.
- `Codec`: field decoding, current and legacy.
- `Money`: amount parsing and fixed-width encoding.
- `Books`: the line-length gate and the numbering of records.
- `Merge`, `Totals`: the merge by line number and the summed totals.
- `Detect`: the threshold test and the scan for differences.
- `Patch`: the difference tuples, the patch loops and the output names.
- `Documents`: document extraction and replacement.
- `ErrorFilter`: the validator-message filter.
- `Pipeline`: the three end-to-end runs, in `orchestrator.py`, `main.py` and `checker_file.py`.

The code has three copies of several steps: the current `core/` modules, the
`main.py` script and the legacy `checker_file.py`. Where the copies behave the
same, one definition serves them all and a lemma cites each copy. Where they
differ, each copy is modelled as written, and a lemma states how they differ.
Examples are the count check, the range check of the patcher, the output
name and the order of the tuple fields.

Four behaviours of the code are worth naming up front:

- The code has three pipelines, in `orchestrator.py`, `main.py` and
  `checker_file.py`, and they differ as just described.
- `error_document_mapper` builds a document tuple as `(line, new, old)`,
  while `get_indexed_error_documents` in `main.py` builds `(line, old, new)`.
  `Documents.IndexedOrderReversed` states the swap.
- The length gate in `core/processing.py` counts the line terminator, so a
  final line without a newline is rejected along with every line of the
  wrong length (`Books.TerminatorCounted`).
- Each accepted line is passed through `strip()` before its fields are cut
  (core/processing.py:47). A line with whitespace at either end is therefore
  cut from a shifted or shorter text, and its fields do not line up with the
  layout's columns. `Books.AcceptedLineReassembles` covers the lines without
  such whitespace.

## Model

| member | source | states |
|---|---|---|
| Text.Strip | core/processing.py:47 | `str.strip()` over the full `str.isspace()` set, Unicode spaces included: the result neither starts nor ends with whitespace, and text already without surrounding whitespace is returned unchanged |
| Text.StripRemovesEnds | core/extraction.py:108 | stripping only removes whitespace: the result occurs in the input with nothing but whitespace before and after it |
| Text.StripLeading | core/extraction.py:96 | `lstrip("0")`: the result is a suffix of the input, everything dropped was a '0', and the result does not start with '0' |
| Text.Slice | core/extraction.py:22 | Python slicing: an in-bounds slice is the sub-sequence, and a start past the end or an empty range gives "" |
| Text.Contains | afip_client/error_utils.py:26-31 | the substring test `msg in text` holds exactly when the message occurs at some position of the text |
| Text.ReplaceAbsent | core/formatting.py:85-95 | `str.replace` of text that does not occur leaves the line unchanged |
| Text.ReplaceLength | core/formatting.py:87 | `str.replace` replaces every occurrence: the length changes by the number of occurrences times the difference in widths |
| Text.SameWidthReplaceKeepsLength | core/file_writer.py:44-46 | replacing text with text of the same width keeps the line's length |
| Text.ReplaceByItself | core/file_writer.py:44-46 | replacing text with itself leaves the line unchanged |
| Numerals.NatToStringDigits | core/calculation.py:146 | `str(n)` of a natural number is digit text that reads back as n, and it starts with '0' only for zero |
| Numerals.IntToString | core/calculation.py:146 | `str(i)` of an integer is the digits of its magnitude, preceded by '-' when it is negative |
| Numerals.ParseInt | core/extraction.py:50 | `int(text)` strips whitespace first and succeeds exactly when what is left is one optional '+' or '-' followed by at least one digit; the value is that of the digits, negated after '-'; anything else is the ValueError |
| Numerals.ParseIntRoundTrip | core/extraction.py:141 | `int(str(i)) == i` for every integer i |
| Numerals.IntToStringInjective | core/field_calculator.py:104 | different integers are written as different texts |
| Numerals.FindCharFirst | core/formatting.py:104 | the index found for a character is its first occurrence, and no index is found exactly when the character is absent |
| Numerals.PadLeft | core/string_utils.py:17-21 | `pad_left`: the result has length max(len, width), ends with the input, and everything before it is '0' |
| Numerals.PadLeftIdempotent | core/calculation.py:121-125 | padding an already padded text again changes nothing |
| Numerals.DigitsAppend | core/calculation.py:146 | digit texts side by side read as the first value shifted by the second text's width, plus the second value |
| Numerals.CanonicalRoundTrip | core/calculation.py:146 | digit text without a leading zero is written back exactly by `str(int(text))` |
| Numerals.PadRestoresDigits | core/calculation.py:146-150 | any digit text is restored by reading it and zero-padding `str` of the value back to its own width |
| Codec.ExtractField | core/extraction.py:19-32 | a position pair yields the inclusive range, whose length is end - start + 1 when in bounds; a single index yields one character; a position past the end yields "" instead of raising |
| Codec.DecimalCut | core/extraction.py:48-49 | `value[:-n]` ends n characters before the end; it is empty when the text is no longer than n |
| Codec.FormatFieldValue | core/extraction.py:46-57 | on the stripped text, a prefix that `int()` accepts (signed, or with surrounding blanks) gives `str(int(prefix))`, then ".", then the last n characters verbatim, so all-digit text gives its value without leading zeros; text no longer than n, or with a non-numeric prefix, is returned stripped and unchanged |
| Codec.ExtractValues | core/extraction.py:60-111 | one decoded field per layout entry, in layout order, with the layout's number and name and a stripped value |
| Codec.DecodeShape | core/extraction.py:75-109 | the same shape facts for either observation text that triggers zero-stripping |
| Codec.ValueOf | core/extraction.py:135-136 | looking a field number up in a decoded line finds it exactly when some field carries that number, and then returns that field's value |
| Codec.NumberedValueOf | core/extraction.py:106 | in a line whose fields are numbered 1..n in order, field k is the k-th entry |
| Codec.DecodedValueOf | core/extraction.py:106-109 | on a tiled layout, field k of a decoded line is the decoding of the layout's k-th field definition |
| Codec.LineReassembles | core/extraction.py:82 | on a layout that tiles the line, the raw field slices put side by side give back the whole line |
| Codec.ZeroStripOnlyExactText | core/extraction.py:88-103 | a field whose observation is neither money nor rate text loses its leading zeros exactly when the observation equals the zero-stripping text |
| Codec.ZeroStripByBook | core/extraction.py:95-96 | with the current text the document fields of both cbte books lose their leading zeros, while the compras alicuota ID field keeps them |
| Codec.ObservationTextsDiffer | core/extraction.py:91-95 | the money, rate and zero-padding observation texts are pairwise distinct, so the branches of the observation match never overlap |
| Codec.LegacyExtract | checker_file.py:452-458 | the legacy slicer agrees with the current one, except that a single index past the end raises |
| Codec.LegacyFormat | checker_file.py:460-464 | the legacy formatter agrees with the current one when it succeeds, and fails exactly when the integer part is not a number |
| Codec.LegacyAgrees | checker_file.py:467-507 | on a layout where no zero-stripping field precedes the first money or rate field, a successful legacy decode equals the current decoder run with the legacy observation text |
| Codec.LegacyUnboundExample | checker_file.py:489-502 | a layout whose first observation is the zero-stripping text fails, because `decimal_index` is read before it is assigned |
| Codec.BlankAmount | checker_file.py:460-464 | a blank money field makes the legacy formatter fail, while the current one returns "" |
| Codec.RegistryLegacyAgrees | checker_file.py:479-507 | on all four layouts a successful legacy decode equals the current decoder run with the legacy zero-stripping text |
| Codec.LegacyZeroStripByBook | checker_file.py:495-496 | with the legacy text only the compras alicuota ID field loses its leading zeros; the ventas and compras cbte document fields keep them |
| Layouts.GetBookStructure | models/book_utils.py:20-21 | the layout lookup succeeds exactly for the four book names, with a non-empty layout; any other name fails with `KeyError`, as an `UnknownBook` failure |
| Layouts.GetBookLength | models/book_utils.py:24-35 | the expected line length is positive exactly for the four book names; an unknown name gives 0, not an error |
| Layouts.RetrieveKeysToSum | models/book_utils.py:4-17 | the list of fields to sum is non-empty exactly for the four book names; an unknown name gives the empty list |
| Layouts.TilesShape | models/models.py:1-437 | a layout that tiles a width is numbered 1..n in order, each field's declared length is end - start + 1, each field starts right after the previous one, the first starts at 0 and the last ends at width - 1 |
| Layouts.TiledLookup | models/models.py:1-437 | in a tiled layout, looking up field number k finds the k-th field definition |
| Layouts.FieldNumbered | models/book_utils.py:20-21 | looking a field number up in a layout finds a definition carrying that number, or none when no field has it |
| Layouts.MoneyKeysByNumber | models/book_utils.py:9-15 | on a tiled layout, each listed sum key names a money field when looked up by number |
| Layouts.VentasCbteWellFormed | models/models.py:2-157 | ventas cbte has 22 fields tiling 266 characters, money fields 15 wide and the exchange rate 10 wide, and its sum keys are strictly increasing money fields |
| Layouts.VentasAlicuotaWellFormed | models/models.py:158-201 | ventas alicuota has 6 fields tiling 62 characters, and its sum keys 4 and 6 are money fields in increasing order |
| Layouts.ComprasCbteWellFormed | models/models.py:202-378 | compras cbte has 25 fields tiling 325 characters, money fields 15 wide and the exchange rate 10 wide, and its sum keys are strictly increasing money fields |
| Layouts.ComprasAlicuotaWellFormed | models/models.py:379-437 | compras alicuota has 8 fields tiling 84 characters, and its sum keys 6 and 8 are money fields in increasing order |
| Layouts.RegistryWellFormed | models/book_utils.py:4-35 | for every known book the layout, the expected length and the sum keys fit together: the layout tiles exactly the expected length and every sum key is a money field |
| Layouts.TotalFieldNotSummed | models/book_utils.py:9-13 | field 9, the declared operation total, is a money field of both cbte books and is never among their sum keys |
| Layouts.ZeroPadTexts | models/models.py:405-414 | compras alicuota field 5 uses "Completar con ceros a izquierda", while the document field 7 of both cbte books uses "Completar con ceros a la izquierda" |
| Books.ProcessLine | core/processing.py:47-55 | a line that is processed belongs to a known book, and its fields are the stripped line decoded with that book's layout |
| Books.ScanShape | core/processing.py:34-59 | a successful scan keys line i as `str(start + i)`, every line has the expected length plus its terminator, and each record is the decoded line |
| Books.ProcessBook | core/processing.py:14-63 | `process_book_file`: a missing file fails; a successful read has one record per line, keyed "1", "2", ... in order, and every line is the expected length plus one |
| Books.ProcessLinesShape | core/book_parser.py:33-59 | `parse_book_file` has the same shape: one record per line, consecutive keys from the start index, every line of the expected length |
| Books.ProcessAppend | core/processing.py:34-59 | reading two runs of lines one after the other is reading the first, then the second numbered on from where the first stopped; the first failure wins |
| Books.FirstBadLineReported | core/processing.py:38-44 | after good lines, the first line of the wrong length aborts the whole file with its 1-based number, its length and the expected one; no partial list is returned |
| Books.GateFails | core/book_parser.py:38-44 | a first line of the wrong length fails the file before any decoding |
| Books.TerminatorCounted | core/processing.py:38 | the gate counts the terminator: a line of exactly the expected length with no terminator is rejected |
| Books.UnknownBookFails | core/processing.py:28-49 | with an unknown book name the expected length is 0, so any non-empty file fails while an empty one reads as an empty list |
| Books.StripDropsTerminator | core/processing.py:47 | stripping a line whose only surrounding whitespace is its terminator removes just the terminator |
| Books.AcceptedLineReassembles | core/processing.py:38-49 | an accepted line that ends in its terminator and has no whitespace as its first character or just before the terminator is, without the terminator, exactly the concatenation of the raw field slices of its layout |
| Books.LegacyProcessAgrees | checker_file.py:553-569 | a successful legacy `process_file` gives exactly what the current reader gives with the legacy zero-stripping text |
| Books.LegacyLineAgrees | checker_file.py:563-566 | a line the legacy decoder accepts is decoded as the current decoder does with the legacy zero-stripping text |
| Merge.IndexOf | core/processing.py:99 | the position found for a key is its first occurrence, and none is found exactly when the key is absent |
| Merge.MergeKeyOrder | core/processing.py:94-116 | the merged keys are the first list's keys in order, then the second list's keys not yet present, in their order; they are distinct, and a key is merged exactly when one of the lists has it |
| Merge.MergedBooks | core/book_merger.py:65-87 | a merged line holds the first book's record exactly when the first list has that key, and the second book's record exactly when the second list has it; a repeated key keeps its last record |
| Merge.DedupOntoSpec | core/book_merger.py:68-83 | adding keys to an ordered dictionary keeps earlier keys in place, never duplicates one, and adds exactly the new keys |
| Merge.DedupOntoAppend | core/processing.py:97-112 | merging one list after another is merging their concatenation |
| Merge.MergeIntoKeys | core/processing.py:97-101 | the keys after merging a list in are the old keys followed by the list's new keys |
| Merge.MergeIntoBooks | core/processing.py:101-112 | after merging a list in, a key holds the list's last record for it under the book, and every other book is unchanged |
| Merge.PositionalMerge | core/processing.py:94-116 | two numbered books of the same length merge line by line: entry i is keyed `str(i + 1)` and holds exactly the i-th record of each book |
| Merge.AppendTotalSums | core/book_merger.py:23-46 | `append_total_sums` keeps every key and every book record, and sets the line total to the first book's total plus the second's, a missing book or summary counting as 0 |
| Merge.AppendTotalSumsIdempotent | core/book_merger.py:24-42 | applying `append_total_sums` twice gives what one application gives |
| Merge.MergeAndSummarize | core/book_merger.py:90-107 | `merge_and_summarize` keys its lines as the merge does: first-list keys, then new second-list keys |
| Merge.PositionalSummary | core/processing.py:161-183 | on two numbered books of the same length, line i of the merged and summed result is keyed `str(i + 1)`, holds both records and carries the sum of their totals |
| Merge.MergeIntoNoTotals | core/processing.py:94-116 | merging never sets a line total; only the summing step does |
| Merge.NumberedDistinct | core/processing.py:58 | keys `str(1)`, `str(2)`, ... are pairwise distinct |
| Totals.Read | core/calculation.py:20-22 | reading a listed field gives its amount in cents when its text is a decimal number, "absent" when the record has no such field, and a rejection carrying the text otherwise |
| Totals.TotalDefined | core/calculation.py:19-28 | a total succeeds exactly when no listed field is rejected, and otherwise fails with the text of the first rejected field |
| Totals.TotalAppend | core/calculation.py:19-28 | the total over two runs of keys is the sum of their totals |
| Totals.AbsentSkipped | core/calculation.py:21-26 | listed keys that are missing from the record are skipped, not errors |
| Totals.Present | core/calculation.py:21 | the readings kept are exactly those that are not absent |
| Totals.JoinKeys | core/calculation.py:32 | `", ".join(map(str, keys))` is empty exactly for no keys, is `str(k)` for a single key, and otherwise starts and ends with a digit |
| Totals.JoinKeysAppend | core/calculation.py:32 | joining two non-empty key lists puts ", " between their joined texts |
| Totals.CalculateFieldTotals | core/field_calculator.py:18-35 | the summary total is the plain sum of the listed fields that are present, missing keys skipped; the record keeps its fields and names the joined keys; it fails exactly when some listed field is not a number, reporting the first such text |
| Totals.TotalIsPlainSum | core/calculation.py:19-28 | a successful sum of the readings equals the independently defined plain sum of their amounts |
| Totals.LegacyTotalIsPlainSum | checker_file.py:509-519 | the legacy sum succeeds exactly when every listed field is present and a number, and then equals the current sum and the plain sum |
| Totals.LegacyTotal | checker_file.py:509-519 | the legacy sum fails on a text that is not a number or on a listed key the record lacks |
| Totals.LegacyMissingKey | checker_file.py:512 | when the legacy sum fails on a missing key, that key was listed and is absent from the record |
| Totals.LegacyTotalAgrees | checker_file.py:509-519 | when every listed key is present the legacy sum equals the current one |
| Totals.RegistryTotalsAgree | checker_file.py:565 | on the four layouts every sum key is present in a decoded line, so the legacy totals equal the current ones |
| Detect.Distance | core/calculation.py:39-50 | `get_difference` is the absolute value of the difference, so it is symmetric and never negative |
| Detect.SignificanceBoundary | core/calculation.py:53-67 | the threshold test is symmetric and strict: amounts exactly one peso apart are not flagged, and one cent more is |
| Detect.Compare | core/calculation.py:89-105 | one merged line is flagged exactly when it holds the book and its declared total differs from the computed one by more than the threshold; a declared total that is not a number fails, and a flagged line reports its key, the computed and the declared amounts |
| Detect.LegacyCompare | checker_file.py:626-640 | the legacy comparison fails on a line without the book, because None enters the arithmetic, and otherwise agrees with the current one |
| Detect.CollectDefined | core/calculation.py:87-108 | scanning the merged lines succeeds exactly when every line does, and otherwise fails with the first line's failure |
| Detect.CollectMembers | core/calculation.py:105 | the differences reported are exactly those flagged on some line |
| Detect.CollectAppend | core/calculation.py:87 | scanning two runs of lines one after the other concatenates their reports, in merged order |
| Detect.FindExactlyFlagged | core/calculation.py:70-108 | `find_total_differences` reports a difference exactly when some line holds the book and its computed and declared totals differ by more than the threshold; the difference carries the line's key and both amounts |
| Detect.FindFails | core/calculation.py:93-95 | the scan fails exactly when some line holding the book has a declared total that is not a number |
| Detect.FindAppend | core/calculation.py:87-108 | the differences of concatenated merged lines are the differences of each part, in order |
| Detect.LegacyFindAgrees | checker_file.py:623-642 | when every merged line holds the book the legacy scan equals the current one; when some line lacks it the legacy scan fails |
| Detect.DetectNumbersFind | core/field_calculator.py:86-108 | `detect_total_differences` succeeds and fails as `find_total_differences` does and reports the same differences in the same order, each line key converted by `int()` |
| Detect.MergedKeysAreNumbers | core/field_calculator.py:104 | every key of two numbered books merged and summed reads as a positive integer, so the `int(key)` conversion never fails |
| Money.WholePesos | core/calculation.py:140 | `math.modf` keeps the sign: the whole pesos of an amount are truncated toward zero, leaving fewer than 100 cents of the same sign |
| Money.TwoDigits | core/calculation.py:143-146 | the cents are written as exactly two digits that read back as their value |
| Money.FormatNumberValue | core/calculation.py:127-156 | `format_number_value` gives None exactly for a value that is not a number, and otherwise a text at least as wide as the width, never truncated |
| Money.FormatValue | checker_file.py:647-667 | the legacy `format_value` gives None exactly for a value that is not a number |
| Money.EncodeNonNegative | core/string_utils.py:24-49 | a non-negative amount is encoded as digit text whose value is the amount in cents, for any width |
| Money.AmountDigitsValue | core/calculation.py:146 | the integer part followed by two cent digits reads back as the amount in cents |
| Money.AmountDigitsWidth | core/calculation.py:146-150 | an amount below 10^15 cents needs at most fifteen digits, so padding to fifteen is enough |
| Money.PadLeftValue | core/string_utils.py:17-21 | zero-padding digit text keeps its value |
| Money.ParseCentsRoundTrip | core/calculation.py:22 | `float()` of an amount written with two decimals, negative or not, reads back the same number of cents |
| Money.DecodeAmountField | core/extraction.py:46-50 | a fifteen-digit amount field decodes to its value in cents written as pesos, ".", and two digits |
| Money.DecodeEncodeRoundTrip | core/string_utils.py:37-49 | a fifteen-digit amount field, decoded and encoded to width 15 again, gives back the same fifteen characters, leading zeros included |
| Money.EncodeDigitsBack | core/calculation.py:140-150 | the amount a fifteen-digit field denotes is encoded back as that field |
| Money.EncodeDecodeRoundTrip | core/calculation.py:140-152 | an amount below 10^15 cents is encoded as fifteen digits worth that amount, which decode back to the amount's text |
| Money.NegativeBelowOnePeso | core/calculation.py:138-150 | a negative amount of less than one peso in magnitude encodes exactly as its absolute value, at any width (the legacy `format_value` is the same encoder at width 15): `modf` gives a zero whole part, so the sign is lost |
| Money.NegativeKeepsSign | core/calculation.py:138-150 | from one peso in magnitude, at any width, the text is '-' followed by the absolute value's digits, zero-padded on the left: the '-' follows the padding zeros, and it is the first character exactly when nothing is padded |
| Money.NegativeEncoding | checker_file.py:650-661 | two examples at width 15: -5 cents encodes as "000000000000005" and -12345 cents as "000000000-12345" |
| Patch.FormatDifference | core/formatting.py:7-36 | anything but a 3-tuple fails with `ValueError`; a triple keeps its line index and encodes each amount to at least fifteen characters, giving None for a value that is not a number |
| Patch.FormattedAmountsDecode | core/diff_formatter.py:24-37 | both amounts of a formatted difference below 10^15 cents become fifteen-character fields that decode back to the amounts |
| Patch.FormatDifferences | core/diff_formatter.py:40-52 | `format_differences` keeps the length and order of its list, formatting each element, and fails exactly when some element is not a 3-tuple |
| Patch.FormatTotalsShape | core/diff_formatter.py:55-67 | `format_total_differences` is `format_differences` after `detect_total_differences`: it fails as detection does, and otherwise formats each detected difference in order |
| Patch.PatchStep | core/formatting.py:78-99 | one replacement keeps the line count and every other line; a line number outside 1..n changes nothing and gives an out-of-range warning; a missing text fails with `TypeError` |
| Patch.ApplyReplacements | core/file_writer.py:36-59 | the patch loop keeps the line count, leaves every line no replacement targets unchanged, and counts one replacement or one warning per tuple |
| Patch.PatchNeverFails | core/formatting.py:83-99 | with both texts present the patch loop never fails: a miss is only a warning |
| Patch.SingleReplacement | core/formatting.py:83-99 | one replacement: out of range gives a warning, an absent text gives a warning and leaves the line alone, and a present text replaces every occurrence on that line and counts one replacement |
| Patch.PatchAppend | core/formatting.py:78-87 | replacements apply in list order: patching with a list followed by another is patching with the first, then with the second on the result |
| Patch.SameWidthPatchKeepsLengths | core/file_writer.py:43-46 | replacing texts with texts of the same width keeps the length of every line |
| Patch.LegacyPatchStep | checker_file.py:695-701 | the legacy step keeps the line count; without a range check, an index past either end raises `IndexError`, and a missing text raises `TypeError` |
| Patch.LegacyPatch | checker_file.py:695-701 | the legacy loop keeps the line count and fails only on an index out of range or a missing text |
| Patch.LegacyPatchAgrees | checker_file.py:695-701 | when every line number is in range the legacy loop agrees with the current one on success and on the patched lines |
| Patch.LegacyLineZeroPatchesLast | checker_file.py:697-701 | line number 0 becomes index -1, so the legacy loop patches the last line where the current loop only warns |
| Patch.BaseName | core/formatting.py:103 | `file_name.split('/')[-1]` is the part after the last '/', and has no '/' in it |
| Patch.FirstDotStem | core/formatting.py:103 | `.split('.')[0]` is the part before the first '.', and has no '.' in it |
| Patch.LastIndex | core/file_writer.py:72 | the position found is the last occurrence of the character, and none is found exactly when it is absent |
| Patch.SplitExt | core/file_writer.py:72 | `os.path.splitext`: stem and extension put together give the name back; the extension is empty or starts at the last '.', and a name made only of dots has no extension |
| Patch.JoinPath | core/file_writer.py:73-75 | `os.path.join` (POSIX rules) puts the name directly after an empty directory or one ending in '/', and after a '/' otherwise |
| Patch.NamesAgreeWithoutDot | core/formatting.py:102-104 | for a file name without a dot both naming rules give `<output>/<name>_modificated.txt` |
| Patch.FirstDotNameOfDotted | core/formatting.py:102-104 | the first-dot rule names `dir/stem.rest` as `<output>/stem_modificated.txt`, whatever the rest |
| Patch.SplitextNameOfDotted | core/file_writer.py:71-75 | the splitext rule names `dir/stem.ext` as `<output>/stem_modificated.ext`, keeping the extension |
| Patch.NamesDifferOnDottedStem | core/file_writer.py:71-75 | for a name with two dots the two rules give different output names |
| Patch.ReplaceValuesInFile | core/formatting.py:54-114 | `replace_values_in_file` formats the tuples first (failing on any that is not a 3-tuple), needs the file, patches it with the range-checked loop and names the output by the first-dot rule |
| Patch.WriteReplacements | core/file_writer.py:7-91 | `write_replacements` writes nothing when the file does not exist; otherwise it consumes the tuples unformatted, patches with the range-checked loop and names the output by the splitext rule |
| Documents.ExtractDocuments | core/extraction.py:114-157 | `extract_documents_by_key` emits at most one entry per merged line, and nothing when no line holds the book |
| Documents.ExtractPositional | core/extraction.py:132-154 | when every merged line holds the book, entry i is the i-th line's document: `int()` of its stripped value, or None when the field is missing or not a number |
| Documents.ReplacementDocumentId | core/error_document_mapper.py:6-20 | the replacement ID is twenty characters, nine zeros followed by the company ID for a document starting with '3' and the person ID otherwise; an empty document fails with `IndexError` |
| Documents.ReplacementIds | core/error_document_mapper.py:16-20 | the two replacement IDs are "00000000030000000007" and "00000000020222222223" |
| Documents.SetNewDocumentValue | main.py:12-26 | the replacement that `set_new_document_value` produces is always twenty characters wide |
| Documents.ReplacementRulesAgree | main.py:12-26 | `set_new_document_value` applies the same '3'-prefix rule as `get_replacement_document_id`, with the same padding |
| Documents.OriginalWidth | core/error_document_mapper.py:62-63 | for a document of at most twenty digits, the original and the replacement are both exactly twenty characters |
| Documents.OriginalReadsBack | core/error_document_mapper.py:62 | the zero-padded original reads back by `int()` as the document number |
| Documents.InvalidSet | core/error_document_mapper.py:56 | `set(int(doc) for doc in errors)` succeeds exactly when every reported string is a number, contains exactly those numbers, and otherwise fails on the first string that is not |
| Documents.FlaggedFrom | core/error_document_mapper.py:58-61 | the positions selected are exactly the flagged ones, in strictly ascending order |
| Documents.Entries | core/error_document_mapper.py:58-67 | one entry per flagged position, in position order |
| Documents.BuildReplacementEntries | core/error_document_mapper.py:43-67 | `build_replacement_entries` succeeds exactly when the invalid set can be built, and otherwise fails as building it does |
| Documents.EntriesCover | core/error_document_mapper.py:59-65 | line k + 1 gets an entry exactly when the k-th document is present and in the invalid set; None positions never do |
| Documents.EntriesContent | core/error_document_mapper.py:61-65 | every entry names a 1-based line whose document is invalid, with the replacement as the new text and the padded original as the old text, the `(line, new, old)` order the patcher reads |
| Documents.EntriesKeepWidth | core/file_writer.py:37-46 | document entries for IDs of at most twenty digits replace texts of the same width, so patching with them never fails and keeps every line's length |
| Documents.IndexedErrorDocuments | main.py:28-52 | `get_indexed_error_documents` succeeds exactly when the invalid set can be built from the reported strings |
| Documents.IndexedOrderReversed | main.py:28-52 | `get_indexed_error_documents` picks the same lines as `build_replacement_entries` but puts the original before the replacement, so the patcher would read its tuples with the two texts swapped |
| Documents.DetectedLines | core/error_document_mapper.py:23-40 | with every line holding the book, line k + 1 gets an entry exactly when its document is present and some string the validator reports reads as that document |
| Documents.NothingReportedNoEntries | core/error_document_mapper.py:38-40 | when the validator reports nothing, no document entries are produced |
| ErrorFilter.Selected | afip_client/error_utils.py:23-33 | the reference definition of the keys reported, in dictionary order; never more keys than entries |
| ErrorFilter.AnyItemContains | afip_client/error_utils.py:26 | `any(msg in item for item in value)` holds exactly when the message occurs in some item |
| ErrorFilter.ValueMatches | afip_client/error_utils.py:24-33 | a list value matches exactly when some message is in some item, a text value exactly when some message is in it, and any other value never does |
| ErrorFilter.FindKeysWithErrorMsgs | afip_client/error_utils.py:4-35 | `find_keys_with_error_msgs` returns exactly the matching keys, in dictionary order |
| ErrorFilter.FilterErrors | afip_client/nit_errors_report.py:15-46 | `filter_errors` returns exactly the same keys as `find_keys_with_error_msgs` |
| ErrorFilter.SelectedMembers | afip_client/error_utils.py:23-33 | a key is reported exactly when some entry under it has a matching value |
| ErrorFilter.SelectedAppend | afip_client/nit_errors_report.py:34-46 | filtering keeps dictionary order: the keys of concatenated entries are the concatenated keys |
| ErrorFilter.SelectedNoDuplicates | afip_client/error_utils.py:26-33 | with distinct keys, as a dictionary has, no key is reported twice |
| ErrorFilter.OtherValuesIgnored | afip_client/nit_errors_report.py:34-44 | values that are neither a list nor a text are never reported |
| ErrorFilter.EmptyMessageMatches | afip_client/error_utils.py:29-33 | the empty message occurs in every text, so it reports every text and every non-empty list |
| Pipeline.GatherDifferences | orchestrator.py:13-23 | `_gather_differences` succeeds exactly when both parts do, and lists the formatted total differences first, then the document entries |
| Pipeline.ApplyDifferences | orchestrator.py:26-33 | `_apply_differences` writes nothing when the file is missing, and otherwise writes the patched lines under the splitext name, failing exactly when the patch does |
| Pipeline.CompareBooks | orchestrator.py:66-74 | after the count check: the books are merged and summed, the differences are the gathered ones, a patched copy of the first book's lines is written exactly when some difference was found, and the written lines are the first book's lines with exactly those differences applied; the run fails only on a text that is not a number or a missing amount |
| Pipeline.CheckCounts | orchestrator.py:52-64 | a failed read is passed on, the first book's first; books of different lengths fail with both counts and the absolute difference before anything is merged |
| Pipeline.RunOnReads | orchestrator.py:36-87 | `run_book_comparison`: a failed read or count check ends the run with that error; after the check the run is exactly the comparison of the two books; a successful run merged both books, gathered the differences, and wrote the first book's lines with them applied, under the splitext name, exactly when it found some |
| Pipeline.RunTargetsInRange | orchestrator.py:66-72 | on two numbered books with different names, every difference a successful run found names a line of the first book, so none is skipped as out of range |
| Pipeline.CompareTargetsInRange | orchestrator.py:66-72 | the same on the books once read and checked |
| Pipeline.GatheredInRange | orchestrator.py:20-23 | on lines keyed "1" .. "n", every gathered difference, total or document, names one of those lines |
| Pipeline.MainOnReads | main.py:76-100 | `process_book_comparison`: the same count check; after it the result is exactly the search for total differences over the merged and summed books, whose only failure is a text that is not a number |
| Pipeline.CountChecksAgree | main.py:82-90 | both runs reject the same pairs of books for their line counts, with the same counts and difference |
| Pipeline.GatherFailsOnValues | orchestrator.py:20-23 | gathering fails only on a text that is not a number: an amount, a line key or a reported document |
| Pipeline.ApplyFailsOnlyOnNone | core/file_writer.py:41-46 | the current patcher fails only on a missing text; a line out of range is only a warning |
| Pipeline.LegacyProcessFile | checker_file.py:553-576 | the legacy `process_file`: a missing file fails; a successful read has one record per line, numbered from 1 |
| Pipeline.LegacyItem | checker_file.py:695-697 | the legacy writer converts a reported line key with `int()`, failing on a key that is not a number |
| Pipeline.LegacyItems | checker_file.py:689-697 | all reported keys convert exactly when each one does, each item converted as `Pipeline.LegacyItem` does and in the same order; a failure is always a ValueError for a key |
| Pipeline.LegacyItemsFirstFailure | checker_file.py:689-697 | when the conversion fails, its error is that of the first key that does not convert, every earlier key having converted |
| Pipeline.LegacyWriteLoop | checker_file.py:687-701 | the legacy loop keeps the line count and converts each key with `int()` when it reaches it: a first key that is not a number fails with ValueError; other failures are an index out of range or a missing amount |
| Pipeline.LegacyWriteLoopAgrees | checker_file.py:687-701 | a successful loop converted every key, and when every key converts the loop equals formatting all items and then running the legacy patch |
| Pipeline.LegacyConvertsInLoop | checker_file.py:695-699 | a first item past the end of the file fails with IndexError even though a later key is not a number, while converting every key first would give ValueError |
| Pipeline.LegacyCompareBooks | checker_file.py:782-789 | the legacy comparison merges and sums, reports the legacy scan's differences, and patches under the first-dot name exactly when some were found, the written lines being the legacy loop's, which equal the legacy patch of the formatted items; it fails on a missing book, a text that is not a number, a line out of range or a missing amount |
| Pipeline.LegacyOnReads | checker_file.py:771-798 | `complete_process`: a failed read ends the run with its error, first book first; otherwise the books are compared whatever their line counts |
| Pipeline.LegacyFindFails | checker_file.py:626-640 | the legacy scan fails only on a line without the book or a total that is not a number |
| Pipeline.LegacyKeysConvert | checker_file.py:695-697 | on numbered books every reported line key converts with `int()`, whatever the books' lengths |
| Pipeline.LegacyHasNoCountCheck | checker_file.py:779-784 | once both books are read the legacy run never fails on line counts, where the current run fails on every pair of books of different lengths |
| Pipeline.MergedNumbered | orchestrator.py:56-67 | two numbered books of the same length merge into one entry per line, keyed "1" .. "n" in order |
| Pipeline.TotalLinesInRange | core/diff_formatter.py:55-67 | on lines keyed "1" .. "n", every formatted total difference names one of those lines |
| Pipeline.DocumentLinesInRange | core/error_document_mapper.py:59-65 | every document entry names a line of the merged book |
| Pipeline.DetectFailsOnValues | core/field_calculator.py:86-108 | the scan for total differences fails only on a text that is not a number |
| Totals.LegacyCalculateTotals | checker_file.py:509-519 | the legacy summary total is the plain sum of the listed fields; it succeeds exactly when every listed field is present and a number, and otherwise fails with the KeyError of a listed, absent key or the ValueError of a text |

## Left out

- File I/O: opening, reading, writing, text encodings (the books are parsed in the platform's default encoding, while the current patcher re-reads the book and writes the patched copy in ISO-8859-1; a line is its sequence of characters), `os.makedirs` and existence checks. A file is a sequence of lines (`None` when missing), and a written file is its name and its lines.
- Logging (`logger.py` and every `logger` call): the patchers' warnings are kept as a list of warnings and nothing else is.
- Report generation (`core/report_generator.py`, `core/reporting.py`): timestamped JSON output depends on the clock and is I/O only, so the runs stop at the patched file.
- The AFIP validator (`afip_client/error_detector.py`, `identify_error_documents` in `afip_client/nit_errors_report.py`): a network client configured from the environment, so it is a function parameter from the extracted documents to the strings it reports.
- `gui.py`: the Tk wizard only collects paths and starts a run.
- `main.py` after line 100: `exit(0)` at lines 100 and 110 ends the script before its patch and report steps, so those steps are not modelled.
- Float arithmetic (`float`, `math.modf`, `round`): amounts are exact integer cents, so float rounding quirks are not modelled. A text `float()` would accept in another spelling (an exponent, `inf`, `nan`, underscores, more than two decimals) is treated as not a number.
- Python `int()` on text with `_` separators or non-ASCII digits: such text is treated as not a number.
- `core/value_extractor` is not part of this model, and `models/book_utils.py` does not define `retrieve_expected_length` or `retrieve_field_structure`. `core/exceptions.py` defines only `BookProcessingError`, so the `ProcessingError` that `orchestrator.py` and `core/book_parser.py` import is not defined. Each is assumed to behave as its equivalent in the code: `extract_document_ids` as `extract_documents_by_key`, `extract_and_format_fields` as `extract_values_from_string`, `retrieve_expected_length` as `get_book_length`, `retrieve_field_structure` as `get_book_structure`, and `ProcessingError` as a plain error.
- The rewrap of every exception into `ProcessingError` or `BookProcessingError` (orchestrator.py:84-87, checker_file.py:575-576): the model keeps each failure as its own `Failure` value, so the rewrap itself is not stated.
- The success message `(True, message)` returned by `run_book_comparison` (orchestrator.py:79): a run's result is the `Comparison` value instead.
- The `dataType` column of the layouts is carried but never read by the code, so no contract mentions it.
- The legacy report written before the patch (checker_file.py:786): with the report left out, only the patch is modelled.
- The `__main__` block of `checker_file.py` (lines 802-810): an ad-hoc script that calls the functions with the wrong arguments.
- `core/__init__.py` (re-exports that name a nonexistent `find_docs`) and `core/exceptions.py` (the `BookProcessingError` class, which only keeps its message; every failure is a `Failure` value instead).
- RunBookComparison: no contract of its own. It only feeds the two book reads to `Pipeline.RunOnReads`, which carries the contract.
- MainComparison: no contract of its own. It only feeds the two reads to `Pipeline.MainOnReads`, which carries the contract.
- LegacyCompleteProcess: no contract of its own. It only feeds the two legacy reads to `Pipeline.LegacyOnReads`, which carries the contract.
- AcceptedLineReassembles: states the reassembly only for accepted lines with no whitespace as the first character or just before the terminator. On other lines `strip()` shifts or shortens the text before the fields are cut, so the fields are not the layout's columns of the line.
- Windows paths: `os.path.basename`, `os.path.join` and `os.path.splitext` are modelled with POSIX rules ('/' only). On Windows they also split on '\\' and join with '\\'; `Patch.BaseName`, `Patch.JoinPath` and `Patch.SplitextName` do not model that.
- Non-text list items in the error filter: `ErrorFilter.ValueMatches` models a list value as a list of texts. A nested list or dict item is tested by membership in the source (afip_client/error_utils.py:26), and an int item raises TypeError; neither is modelled.
