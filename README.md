# region-id: the Kepmendagri parser, the dataset builder and the comparison scripts in Dafny

region-id turns the Indonesian Ministry of Home Affairs' region gazetteer
(a *Kepmendagri* decree, a PDF of tables) into four CSV datasets of
provinces, regencies (*kabupaten* and *kota*), districts (*kecamatan*) and
villages (*kelurahan* and *desa*). Each region has a hierarchical code:
`NN` for a province, `NN.NN` for a regency, `NN.NN.NN` for a district and
`NN.NN.NN.NNNN` for a village.

This project models the core of that pipeline and proves properties of
the model:

- **Page classifier.** It labels a page PROVINSI, KAB_KOTA, KECAMATAN,
  KELURAHAN_DESA or UNKNOWN. It looks at the last word of the normalized
  header cells.
- **Row classifier.** It gives a code its level by the code's shape.
- **Row processor.** It keeps the current province, regency and district
  in a parsing state.
- **Four table parsers** (province, regency, district, village). They turn
  a page's table into raw rows. There is also the text-based regency
  aggregate reader.
- **Pipeline runner's page loop.** It holds the province-tracking stop
  rule, the fallback of an unknown page onto the previous page's type, and
  the routing to the parsers.
- **Dataset builder.** It copies raw rows into records and derives
  regency and province capitals from the district rows. It rejects
  duplicate codes, checks the foreign keys and sorts each list by code.
- **Two comparison scripts.** One compares flattened region tables at
  village level. The other compares region CSV files by `code` with a
  status per code.

The following are written out over ASCII as total functions with explicit
error results:

- the Python string operations: `strip`, `split`, `upper`, `replace` and
  string ordering;
- the regular expressions the parsers use.

Where Python raises an exception (an `IndexError`, a `KeyError`, a
`NameError`), the model returns an error value instead of asking callers
to avoid the input. Loops in the source are methods with loop invariants,
each proved equal to a specification function. The properties are proved
about those functions. The parsing state that the row processor updates
in place is a class.

## Behaviour as written

Where the documented behaviour and the code differ, the model follows the
code:

- A province row needs at least eleven cells: the island count is read
  from `aggregates[7]`, column 10. With fewer cells the `IndexError` is
  caught and the row yields nothing (`ProvinceParser.ShortRowYieldsNothing`).
- The district parser emits a district row whatever context it is under,
  including no province or regency at all (`DistrictParser.Visit`).
- The village parser emits no marker row for a district-code row. It only
  remembers the district (`VillageParser.VisitCode`).
- The builder checks the regency → province foreign key too
  (`kepmendagri_parser/builders/dataset_builder.py:189`).
- When a regency has several capitals, the error message names the
  undefined variable `p`. So `normalize_regency` ends with a `NameError`,
  not with the intended `ValueError` (`DatasetBuilder.RegencyOf`, error
  `UndefinedName`).
- `re.match` with `$` accepts one trailing newline, so `"11\n"` is a
  province code (`RowClassifier.TrailingNewline`). Two newlines are not
  accepted (`RowClassifier.TwoNewlines`).

## Model

| member | source | states |
|---|---|---|
| `Text.Upper` | kepmendagri_parser/classifier/page_classifier.py:22 | upper-casing keeps the length, maps each character through the ASCII case map and leaves no lower-case letter |
| `Text.TrimStart` | kepmendagri_parser/parsers/district_parser.py:15 | the result is a suffix of the input; everything removed is whitespace, and the result does not start with whitespace |
| `Text.TrimEnd` | kepmendagri_parser/parsers/district_parser.py:15 | the result is a prefix of the input; everything removed is whitespace, and the result does not end with whitespace |
| `Text.Strip` | kepmendagri_parser/parsers/district_parser.py:15 | the result is the input less its whitespace ends: a slice `s[a..b]` with only whitespace outside it and none at either of its own ends |
| `Text.StripStripped` | kepmendagri_parser/parsers/district_parser.py:15 | stripping a string without whitespace at its ends leaves it unchanged |
| `Text.SplitOn` | kepmendagri_parser/parsers/province_parser.py:4 | `split` on one character gives at least one piece, and no piece holds the separator |
| `Text.SplitOnNoSep` | kepmendagri_parser/parsers/province_parser.py:4 | a string without the separator splits into itself alone |
| `Text.JoinSplit` | kepmendagri_parser/parsers/province_parser.py:4 | joining the pieces of a split with the separator gives the original string back |
| `Text.LastWord` | kepmendagri_parser/classifier/page_classifier.py:33 | `split()[-1]` fails exactly on an all-whitespace string; otherwise it is the non-empty, space-free last token of the right-stripped string, preceded by whitespace or nothing |
| `Text.DigitRun` | kepmendagri_parser/parsers/district_parser.py:111 | the length of the leading run of digits: all digits up to it and a non-digit after it |
| `Text.SpaceRun` | kepmendagri_parser/parsers/district_parser.py:111 | the length of the leading run of whitespace, followed by a non-whitespace character |
| `Text.DropOrdinal` | kepmendagri_parser/parsers/district_parser.py:111 | removing a leading number changes the name exactly when it starts with digits (followed by whitespace when that is required); what is removed is the digits and then whitespace, and the rest starts with no whitespace |
| `Text.RemoveChar` | kepmendagri_parser/parsers/district_parser.py:79 | `replace(".", "")` leaves no dot and never lengthens the string |
| `Text.RemoveCharAppend` | kepmendagri_parser/parsers/district_parser.py:79 | removing a character distributes over concatenation |
| `Text.RemoveCharAbsent` | kepmendagri_parser/parsers/district_parser.py:79 | removing a character the string lacks changes nothing |
| `Text.RunLength` | kepmendagri_parser/parsers/district_parser.py:13 | the length of the leading run of characters of a class, followed by a character outside it |
| `Text.ReplaceRuns` | kepmendagri_parser/parsers/district_parser.py:11-13 | replacing runs never lengthens the string and brings in nothing but spaces; which runs become a space is stated by `ReplaceRunsLongRun`, `ReplaceRunsShortRuns` and `ReplaceRunsSingle` |
| `Text.ReplaceRunsLongRun` | kepmendagri_parser/parsers/district_parser.py:11-13 | a maximal run of the class at least `minLength` long becomes exactly one space, and the text on each side is replaced on its own |
| `Text.ReplaceRunsShortRuns` | kepmendagri_parser/parsers/district_parser.py:13 | a text whose every run is shorter than `minLength` (`\s{2,}` on single spaces) is kept unchanged |
| `Text.ReplaceRunsSingle` | kepmendagri_parser/classifier/page_classifier.py:31 | with `\s+` (or `[\n\r\t]+`) no character of the class is left but lone spaces, none followed by another |
| `Text.ReplaceRunsAppend` | kepmendagri_parser/parsers/district_parser.py:11-13 | replacing runs distributes over a concatenation at which no run crosses |
| `Codes.DigitsDotFree` | kepmendagri_parser/parsers/district_parser.py:79 | removing the dots from a province code changes nothing |
| `Codes.DotFreeSplit` | kepmendagri_parser/parsers/district_parser.py:108 | removing dots from a code drops the dot before its last digit group |
| `Codes.DotFreeRegency` | kepmendagri_parser/parsers/regency_parser.py:25-26 | a canonical regency code has 4 digits, the first two being the province code |
| `Codes.DotFreeDistrict` | kepmendagri_parser/parsers/district_parser.py:108 | a canonical district code has 6 digits and starts with its canonical regency code |
| `Codes.DotFreeVillage` | kepmendagri_parser/parsers/village_parser.py:39 | a canonical village code has 10 digits and starts with its canonical district code |
| `Ordering.LessEqTotal` | kepmendagri_parser/builders/dataset_builder.py:77 | Python's string order is total |
| `Ordering.LessEqTrans` | kepmendagri_parser/builders/dataset_builder.py:77 | Python's string order is transitive |
| `Ordering.LessEqAntisym` | kepmendagri_parser/builders/dataset_builder.py:77 | Python's string order is antisymmetric |
| `Ordering.InsertBy` | kepmendagri_parser/builders/dataset_builder.py:77 | inserting into a sorted list keeps it sorted, adds exactly the new element and grows the list by one |
| `Ordering.SortBy` | kepmendagri_parser/builders/dataset_builder.py:77 | `sorted(out, key=...)` is an ascending permutation of its input |
| `Ordering.InsertByDistinct` | kepmendagri_parser/builders/dataset_builder.py:77 | inserting an element with a new key into a list with distinct keys keeps the keys distinct |
| `Ordering.SortByDistinct` | kepmendagri_parser/builders/dataset_builder.py:76-77 | sorting keeps distinct keys distinct, so the checked uniqueness survives the sort |
| `Ordering.Sorted` | kepmendagri_parser/builders/dataset_builder.py:55 | `sorted` of a list of strings is an ascending permutation of it |
| `Ordering.FirstRepeat` | kepmendagri_parser/builders/dataset_builder.py:23-29 | the `seen`-set scan finds no repeat exactly when all values differ; otherwise it stops at the first value met again, before which all differ |
| `Ordering.FirstRepeatFrom` | kepmendagri_parser/builders/dataset_builder.py:25-29 | the same scan resumed at position `i` after a repeat-free prefix |
| `Ordering.Dedup` | kepmendagri_parser/builders/dataset_builder.py:40 | building the set of parent keys keeps each value once, and keeps exactly the values of the list |
| `Ordering.HasLeast` | scripts/compare_regions_id.py:74 | a non-empty finite set of strings has a least element |
| `Ordering.LeastUnique` | scripts/compare_regions_id.py:74 | the least element exists and is unique |
| `Ordering.Least` | scripts/compare_regions_id.py:74 | `min` of a non-empty set is in the set and no greater than any element |
| `Ordering.SortedSet` | scripts/compare_regions_id.py:74 | `sorted(all_keys)` lists every element of the set once, in ascending order, and nothing else |
| `Ordering.DistinctConcat` | scripts/compare_regions_id.py:91-96 | two repeat-free lists with nothing in common join into a repeat-free list |
| `Ordering.CountIf` | scripts/compare_regions_id.py:78-84 | a counter bumped once per matching element never exceeds the number of elements |
| `Ordering.CountIfCard` | scripts/compare_regions_id.py:78-84 | over a repeat-free list, the count is the size of the set of matching elements |
| `Ordering.CountIfSet` | scripts/compare_regions_id.py:78-84 | over a repeat-free listing of a set, the count is the size of the matching subset |
| `Ordering.DistinctCard` | scripts/compare_regions_id.py:68 | a repeat-free list has as many elements as its set of elements |
| `RowClassifier.ClassifyRow` | kepmendagri_parser/classifier/row_classifier.py:4-17 | a level other than OTHER is given only to a code matching that level's pattern; OTHER is given exactly when no pattern matches |
| `RowClassifier.PatternsExclusive` | kepmendagri_parser/classifier/row_classifier.py:4-17 | no code matches two patterns, so the order of the tests does not matter |
| `RowClassifier.ClassifyRowComplete` | kepmendagri_parser/classifier/row_classifier.py:4-17 | every code matching a level's pattern is classified as that level |
| `RowClassifier.TrailingNewline` | kepmendagri_parser/classifier/row_classifier.py:5 | a code of any level followed by one newline still gets that level |
| `RowClassifier.TwoNewlines` | kepmendagri_parser/classifier/row_classifier.py:5 | a province code followed by two newlines is OTHER |
| `RowProcessor.Step` | kepmendagri_parser/processors/row_processor.py:9-22 | a province row resets the regency and district; a regency row keeps the province and resets the district; a district row sets only the district; a village or other row changes nothing |
| `RowProcessor.TrackExplains` | kepmendagri_parser/processors/row_processor.py:4-24 | after any rows, each filled slot holds the last row of its level, and no row of its level or above came after it; an empty slot has a reason: no such row yet, or a higher-level row came later |
| `RowProcessor.ParsingState.ProcessRows` | kepmendagri_parser/processors/row_processor.py:4-24 | the state's new province, regency and district are the old ones tracked through the rows |
| `PageClassifier.JoinLetters` | kepmendagri_parser/classifier/page_classifier.py:17-25 | closing up letter-spaced capitals keeps upper case; with `JoinLettersKeeps` and `JoinLettersClosed`, only whitespace goes and no letter gap is left |
| `PageClassifier.JoinLettersKeeps` | kepmendagri_parser/classifier/page_classifier.py:17-25 | only whitespace is removed: the non-whitespace characters of the result are those of the input, in order |
| `PageClassifier.JoinLettersClosed` | kepmendagri_parser/classifier/page_classifier.py:17-25 | after closing up, no whitespace run is left between two one-letter capitals |
| `PageClassifier.StripFootnotes` | kepmendagri_parser/classifier/page_classifier.py:28 | removing footnote marks keeps upper case and a first character that is not a star; what is removed is stated by `FootnotesGone`, `FootnoteRemoved` and `NoFootnoteUnchanged` |
| `PageClassifier.FootnotesGone` | kepmendagri_parser/classifier/page_classifier.py:28 | no `*` followed by `)` is left in the result |
| `PageClassifier.FootnoteRemoved` | kepmendagri_parser/classifier/page_classifier.py:28 | a maximal run of stars closed by `)` is removed with the `)`, and the text on each side is treated on its own |
| `PageClassifier.NoFootnoteUnchanged` | kepmendagri_parser/classifier/page_classifier.py:28 | text without a `*)` is left unchanged |
| `PageClassifier.Spaced` | kepmendagri_parser/classifier/page_classifier.py:22-31 | the text before stripping has no lower case and every whitespace character in it is a lone space |
| `PageClassifier.Cleaned` | kepmendagri_parser/classifier/page_classifier.py:22-31 | the cleaned header text is stripped, has no lower case and only lone spaces |
| `PageClassifier.CleanedNoFootnote` | kepmendagri_parser/classifier/page_classifier.py:28-31 | the cleaned header text holds no footnote mark |
| `PageClassifier.NormalizeHeader` | kepmendagri_parser/classifier/page_classifier.py:18-33 | exactly a falsy cell gives ""; for any other cell, nothing (the `IndexError` of `split()[-1]`) exactly when the cleaned text is blank, and otherwise the non-empty end of the cleaned text after its last space, without whitespace or lower case |
| `PageClassifier.StrippedLastWord` | kepmendagri_parser/classifier/page_classifier.py:33 | `split()[-1]` of stripped single-spaced text fails exactly on "" and is otherwise the end after the last space |
| `PageClassifier.FootnoteOnly` | kepmendagri_parser/classifier/page_classifier.py:18-33 | the cell "*)" cleans to blank, so its last word raises |
| `PageClassifier.NumberHeaderWithFootnote` | kepmendagri_parser/classifier/page_classifier.py:18-33 | the cell "NO *)" normalizes to "NO" |
| `PageClassifier.JoinLettersKode` | kepmendagri_parser/classifier/page_classifier.py:24-25 | the letter-spaced "K O D E" closes up to "KODE" |
| `PageClassifier.LetterSpacedKode` | kepmendagri_parser/classifier/page_classifier.py:17-33 | the header cell "K O D E" normalizes to "KODE" |
| `PageClassifier.CleanWord` | kepmendagri_parser/classifier/page_classifier.py:28-33 | a word without whitespace or stars passes footnote removal, whitespace normalization and last-word selection unchanged |
| `PageClassifier.NoStarsUnchanged` | kepmendagri_parser/classifier/page_classifier.py:28 | text without stars has no footnote to remove |
| `PageClassifier.NoSpaceUnchanged` | kepmendagri_parser/classifier/page_classifier.py:31 | text without whitespace is left alone by whitespace normalization |
| `PageClassifier.ClassifyPage` | kepmendagri_parser/classifier/page_classifier.py:6-60 | no table or an empty header gives UNKNOWN; a failing normalization is an error; KELURAHAN_DESA exactly when the first header word is KODE; PROVINSI, KAB_KOTA or KECAMATAN exactly when the first word is NO and the third cell's word is PROVINSI, KOTA or KECAMATAN |
| `PageClassifier.ShortHeader` | kepmendagri_parser/classifier/page_classifier.py:36-57 | a header of fewer than three cells can only give KELURAHAN_DESA or UNKNOWN |
| `Runner.PyIndex` | kepmendagri_parser/pipeline/runner.py:55 | `pdf.pages[page_number - 1]` exists exactly for indexes in `[-n, n)`, a negative index counting from the end |
| `Runner.LastPage` | kepmendagri_parser/pipeline/runner.py:50 | a missing or zero end page means the last page; otherwise the end page, capped at the page count |
| `Runner.Dispatch` | kepmendagri_parser/pipeline/runner.py:78-80 | a known type is kept; an unknown page takes the previous page's type when there is one |
| `Runner.Route` | kepmendagri_parser/pipeline/runner.py:89-107 | each page type feeds its parser, whose rows extend the matching list; other lists are unchanged; an unknown page feeds no parser; a parser failure is the route's failure |
| `Runner.Visit` | kepmendagri_parser/pipeline/runner.py:55-109 | one page: a missing page is an `IndexError`; the loop stops exactly at an unknown page after a province page, with the rows unchanged; otherwise the page is routed under its dispatched type, and that type becomes the last page type |
| `Runner.StoppedStays` | kepmendagri_parser/pipeline/runner.py:73-75 | once the loop has stopped, later pages change nothing |
| `Runner.FailureStays` | kepmendagri_parser/pipeline/runner.py:52-109 | once a page has failed, later pages change nothing |
| `Runner.UptoInvariant` | kepmendagri_parser/pipeline/runner.py:60-75 | after any prefix of the pages: stopped exactly when an unknown page follows a province page; while running, the unknown counter is 0, a province page has been seen exactly when one came, and a last page type exists exactly when a page was visited |
| `Runner.NoProvinceNoStop` | kepmendagri_parser/pipeline/runner.py:61-75 | without a province page the loop never stops |
| `Runner.RoutePage` | kepmendagri_parser/pipeline/runner.py:89-107 | the routing `if`/`elif` chain does what `Route` says |
| `Runner.VisitPage` | kepmendagri_parser/pipeline/runner.py:55-109 | the loop body does what `Visit` says |
| `Runner.RunPipeline` | kepmendagri_parser/pipeline/runner.py:38-109 | the page loop from the start page to the computed last page gives the rows `RunPipelineSpec` gives |
| `DistrictParser.CleanName` | kepmendagri_parser/parsers/district_parser.py:7-15 | an empty value gives nothing; any other value gives a stripped name without tab, CR or LF and without two whitespace characters in a row |
| `DistrictParser.ReplacedRunsGone` | kepmendagri_parser/parsers/district_parser.py:11 | replacing the tab/CR/LF runs leaves none of those characters |
| `DistrictParser.CollapsedRunsSingle` | kepmendagri_parser/parsers/district_parser.py:13 | collapsing runs of two or more whitespace characters leaves no two in a row |
| `DistrictParser.CollapsedNoControl` | kepmendagri_parser/parsers/district_parser.py:11-13 | collapsing whitespace does not bring tab, CR or LF back |
| `DistrictParser.StripKeeps` | kepmendagri_parser/parsers/district_parser.py:15 | stripping keeps both clean-name properties |
| `DistrictParser.ControlFreeUnchanged` | kepmendagri_parser/parsers/district_parser.py:11 | text without tab, CR or LF passes the first substitution unchanged |
| `DistrictParser.SingleSpacesUnchanged` | kepmendagri_parser/parsers/district_parser.py:13 | text without two whitespace characters in a row passes the second substitution unchanged |
| `DistrictParser.CleanNameIdempotent` | kepmendagri_parser/parsers/district_parser.py:7-15 | cleaning a cleaned non-empty name changes nothing |
| `DistrictParser.MaxLength` | kepmendagri_parser/parsers/district_parser.py:20 | `max(len(r) for r in headers)` bounds every header row's length and is reached by one of them |
| `DistrictParser.FinishHeader` | kepmendagri_parser/parsers/district_parser.py:28 | a finished header has no newline and no lower-case letter |
| `DistrictParser.MergedHeader` | kepmendagri_parser/parsers/district_parser.py:17-28 | an empty table fails (`max` of nothing); otherwise there is one header per column of the widest header row, each free of newlines and lower-case letters |
| `DistrictParser.NormalizeHeaderRows` | kepmendagri_parser/parsers/district_parser.py:17-28 | the merging loops do what `MergedHeader` says |
| `DistrictParser.ColumnCount` | kepmendagri_parser/parsers/district_parser.py:20 | the maximum row length, computed by a loop |
| `DistrictParser.MergeRow` | kepmendagri_parser/parsers/district_parser.py:23-26 | each column gets a space and its cell appended when the cell is truthy, and nothing otherwise |
| `DistrictParser.FindColIdx` | kepmendagri_parser/parsers/district_parser.py:30-34 | the first header containing the keyword, or nothing when none does |
| `DistrictParser.Visit` | kepmendagri_parser/parsers/district_parser.py:73-115 | a province code sets the province, keeps the regency and the regency capital, and with a capital sets the province capital and emits one marker row of the new context, otherwise keeps the capital and emits nothing; a regency code does the same for the regency with dots dropped; a district code keeps the context and emits one row carrying the dot-free code, the context's province, regency and both capitals, the name without its ordinal and the page; any other code changes nothing |
| `DistrictParser.ScanRow` | kepmendagri_parser/parsers/district_parser.py:58-71 | a row whose name column is missing while its code column is present raises `IndexError`; an empty row, a short row or an empty code is skipped; otherwise at most one well-formed row is emitted |
| `DistrictParser.Scan` | kepmendagri_parser/parsers/district_parser.py:58-115 | the row loop emits at most one row per table row, all well-formed; what each row does is stated by `ScanVisits`, `DistrictEmitted` and `ScanPrefix` |
| `DistrictParser.ScanStep` | kepmendagri_parser/parsers/district_parser.py:58-115 | one more table row continues the scan of the rows before it with what `ScanRow` gives, or raises |
| `DistrictParser.ScanNone` | kepmendagri_parser/parsers/district_parser.py:58-68 | once a prefix of the rows raises, the whole loop raises |
| `DistrictParser.ScanPrefix` | kepmendagri_parser/parsers/district_parser.py:58-115 | order: the rows emitted for the first `k` table rows are a prefix of all rows emitted |
| `DistrictParser.ScanVisits` | kepmendagri_parser/parsers/district_parser.py:58-115 | a table row without a code changes nothing; a row with a code does what `Visit` does with its name and capital cells in the context the rows before it left, its rows appended after theirs |
| `DistrictParser.DistrictEmitted` | kepmendagri_parser/parsers/district_parser.py:106-115 | completeness: every district-code row puts its district, named without its ordinal and carrying the context the rows before it left, right after their rows in the output |
| `DistrictParser.ExtractDistricts` | kepmendagri_parser/parsers/district_parser.py:36-117 | an empty table fails with `ValueError`; otherwise at most one row per table row, each of the page, and exactly the rows with a 6-digit district code carry a name; `ExtractDistrictsScan` ties it to the row loop |
| `DistrictParser.ExtractDistrictsScan` | kepmendagri_parser/parsers/district_parser.py:50-117 | with a KODE and a KECAMATAN column, the parser succeeds exactly when the row loop over the whole table does, returns its rows, and otherwise raises `IndexError` |
| `DistrictParser.MissingColumns` | kepmendagri_parser/parsers/district_parser.py:55-56 | without a KODE or a KECAMATAN column nothing is extracted |
| `DistrictParser.ScanOneRow` | kepmendagri_parser/parsers/district_parser.py:59-115 | the loop body does what `ScanRow` says |
| `DistrictParser.VisitCode` | kepmendagri_parser/parsers/district_parser.py:73-115 | the code branches do what `Visit` says |
| `DistrictParser.ScanTable` | kepmendagri_parser/parsers/district_parser.py:58-117 | the row loop does what `Scan` says |
| `DistrictParser.ExtractDistrictsFromTable` | kepmendagri_parser/parsers/district_parser.py:36-117 | the parser does what `ExtractDistricts` says |
| `VillageParser.VisitCode` | kepmendagri_parser/parsers/village_parser.py:19-44 | a district code sets the current district and emits nothing; a village row is emitted exactly when its code is a village code, a district is current and a name cell is filled; the row takes the kelurahan name when there is one, else the desa name, with the numbering removed |
| `VillageParser.VisitRow` | kepmendagri_parser/parsers/village_parser.py:11-44 | a row of fewer than seven cells changes nothing; any other row emits at most one well-formed row |
| `VillageParser.Scan` | kepmendagri_parser/parsers/village_parser.py:11-46 | at most one row per table row, each of the page with a 10-digit code, a 6-digit district and a known type |
| `VillageParser.ExtractVillages` | kepmendagri_parser/parsers/village_parser.py:7-46 | fewer rows than the table has, all well-formed; which rows is stated by `VillageEmitted` with `VisitCode`, `CurrentIsLastDistrict` and `NoCurrentDistrict` |
| `VillageParser.HeaderIgnored` | kepmendagri_parser/parsers/village_parser.py:11 | the header row never matters |
| `VillageParser.NoDistrictNoVillages` | kepmendagri_parser/parsers/village_parser.py:25 | before any district-code row, village rows are dropped |
| `VillageParser.ScanPrefix` | kepmendagri_parser/parsers/village_parser.py:11-44 | order: the rows emitted for the first `m` table rows are a prefix of all rows emitted |
| `VillageParser.VillageEmitted` | kepmendagri_parser/parsers/village_parser.py:11-44 | each table row is visited with the district current after the rows before it, and what it emits follows their rows in the output |
| `VillageParser.CurrentIsLastDistrict` | kepmendagri_parser/parsers/village_parser.py:20-21 | the current district is the dot-free code of the last row of seven or more cells with a district code |
| `VillageParser.NoCurrentDistrict` | kepmendagri_parser/parsers/village_parser.py:9-25 | before any such row no district is current, so no village row is emitted |
| `VillageParser.ExtractVillagesFromTable` | kepmendagri_parser/parsers/village_parser.py:7-46 | the row loop does what `ExtractVillages` says |
| `ProvinceParser.StrippedPieces` | kepmendagri_parser/parsers/province_parser.py:4 | the kept pieces are non-empty and stripped |
| `ProvinceParser.SplitCell` | kepmendagri_parser/parsers/province_parser.py:1-4 | an empty cell gives no lines; every line is non-empty, stripped and free of newlines |
| `ProvinceParser.SplitJoin` | kepmendagri_parser/parsers/province_parser.py:4 | splitting newline-joined lines gives the lines back |
| `ProvinceParser.CleanPiecesKept` | kepmendagri_parser/parsers/province_parser.py:4 | non-empty stripped pieces are all kept |
| `ProvinceParser.SplitCellJoin` | kepmendagri_parser/parsers/province_parser.py:1-4 | a cell of clean lines joined by newlines splits back into those lines |
| `ProvinceParser.IslandColumn` | kepmendagri_parser/parsers/province_parser.py:21 | `aggregates[7]` exists exactly when the row has at least eleven cells |
| `ProvinceParser.SubRows` | kepmendagri_parser/parsers/province_parser.py:23-37 | each emitted province has a two-digit code and the page and comes from one sub-row with a name and an island count at its position; every such sub-row emits its province |
| `ProvinceParser.SubRowsPrefix` | kepmendagri_parser/parsers/province_parser.py:23-37 | order: the provinces of the first `m` sub-rows are a prefix of those of the first `n` |
| `ProvinceParser.SubRowsLast` | kepmendagri_parser/parsers/province_parser.py:23-37 | each sub-row adds at most its own province after those of the sub-rows before it |
| `ProvinceParser.SubRowsExactly` | kepmendagri_parser/parsers/province_parser.py:23-37 | the provinces of all sub-rows are exactly those the sub-rows yield |
| `ProvinceParser.RowProvinces` | kepmendagri_parser/parsers/province_parser.py:10-37 | a short row or one with no code or name lines yields nothing; otherwise at most one province per code line, and a province is yielded exactly when one of the row's sub-rows yields it |
| `ProvinceParser.NoIslandColumn` | kepmendagri_parser/parsers/province_parser.py:27-37 | without an island-count column every sub-row's `IndexError` is caught and nothing is emitted |
| `ProvinceParser.ShortRowYieldsNothing` | kepmendagri_parser/parsers/province_parser.py:11-37 | a row of fewer than eleven cells yields no province |
| `ProvinceParser.ScanRows` | kepmendagri_parser/parsers/province_parser.py:10-37 | every emitted province has a two-digit code and the page, and a province is emitted exactly when some row yields it |
| `ProvinceParser.ExtractProvinces` | kepmendagri_parser/parsers/province_parser.py:7-39 | every province has a two-digit code and the page, and a province is returned exactly when some row after the header yields it |
| `ProvinceParser.ProvincesOfRow` | kepmendagri_parser/parsers/province_parser.py:23-37 | the sub-row loop does what `SubRows` says |
| `ProvinceParser.ProvincesOfTableRow` | kepmendagri_parser/parsers/province_parser.py:11-37 | the row guards and sub-row loop do what `RowProvinces` says |
| `ProvinceParser.ExtractProvincesFromTable` | kepmendagri_parser/parsers/province_parser.py:7-39 | the row loop does what `ExtractProvinces` says |
| `RegencyParser.RegencyType` | kepmendagri_parser/parsers/regency_parser.py:28 | the type is "city" exactly when the name starts with "Kota", and "regency" otherwise |
| `RegencyParser.FindDataRow` | kepmendagri_parser/parsers/regency_parser.py:14 | the first non-empty row whose column 1 holds a newline, with every earlier row empty or not such a row; `IndexError` when a one-cell row is reached first |
| `RegencyParser.Pairs` | kepmendagri_parser/parsers/regency_parser.py:21-36 | at most one regency per code/name pair, each from a pair whose code is `NN.NN`; completeness and order are stated by `PairsComplete`, `PairsStep` and `PairsPrefix` |
| `RegencyParser.PairsWellFormed` | kepmendagri_parser/parsers/regency_parser.py:21-36 | every regency given has a 4-digit code beginning with its province code, the page and the type its name gives |
| `RegencyParser.PairsComplete` | kepmendagri_parser/parsers/regency_parser.py:21-36 | completeness: every pair whose code is `NN.NN` gives its regency |
| `RegencyParser.PairsStep` | kepmendagri_parser/parsers/regency_parser.py:21-36 | one step of the `zip` loop appends the pair's regency exactly when its code is `NN.NN` |
| `RegencyParser.PairsPrefix` | kepmendagri_parser/parsers/regency_parser.py:21-36 | order: the regencies of the first `m` pairs are a prefix of those of the first `n` |
| `RegencyParser.PairsExactly` | kepmendagri_parser/parsers/regency_parser.py:21-36 | the regencies given are exactly those of the pairs whose code is `NN.NN` |
| `RegencyParser.ExtractRegencies` | kepmendagri_parser/parsers/regency_parser.py:10-38 | every extracted regency is of the page, with a 4-digit code that begins with its province code and the type its name gives; `ExtractRegenciesBound` states which |
| `RegencyParser.ExtractRegenciesBound` | kepmendagri_parser/parsers/regency_parser.py:18-36 | with a three-cell data row the parse succeeds, with no more regencies than code lines or name lines, and a regency is extracted exactly when one of the zipped code/name pairs gives it |
| `RegencyParser.FindDataRowIndex` | kepmendagri_parser/parsers/regency_parser.py:14 | the search loop does what `FindDataRow` says |
| `RegencyParser.PairUp` | kepmendagri_parser/parsers/regency_parser.py:21-36 | the `zip` loop does what `Pairs` says over the shorter list |
| `RegencyParser.ExtractRegenciesFromTable` | kepmendagri_parser/parsers/regency_parser.py:10-38 | the parser does what `ExtractRegencies` says |
| `RegencyAggregate.FirstTail` | pipeline/administrative/extract/parsers/regency_aggregate.py:5-6 | the position found lies in the range searched; `FirstTailLeftmost` states it is the leftmost match |
| `RegencyAggregate.FirstTailLeftmost` | pipeline/administrative/extract/parsers/regency_aggregate.py:5-6 | the lazy `+?`: the position found is one where the number tail matches and none before it in the range does; no position is found exactly when none in the range matches |
| `RegencyAggregate.KeywordLength` | pipeline/administrative/extract/parsers/regency_aggregate.py:5 | 9 at "Kabupaten", 4 at "Kota", 0 elsewhere |
| `RegencyAggregate.NameEnd` | pipeline/administrative/extract/parsers/regency_aggregate.py:5-6 | the lazy name ends after at least two characters past the keyword, within the line; `NameEndTail` states what ends it |
| `RegencyAggregate.NameEndTail` | pipeline/administrative/extract/parsers/regency_aggregate.py:5-6 | the name ends where the number tail matches, with only letters and whitespace before it |
| `RegencyAggregate.MatchAtShape` | pipeline/administrative/extract/parsers/regency_aggregate.py:3-7 | a match is an `NN.NN` code, whitespace, a keyword, a name of at least two more characters and a number tail |
| `RegencyAggregate.Search` | pipeline/administrative/extract/parsers/regency_aggregate.py:17 | `REGEX.search` finds the leftmost start position at which the pattern matches, or nothing when none does |
| `RegencyAggregate.FindNumbers` | pipeline/administrative/extract/parsers/regency_aggregate.py:29 | every number found starts with a digit and holds only digits, dots and commas; `FindNumbersTokenizes` and `TokenizesUnique` state it is exactly `findall` |
| `RegencyAggregate.FindNumbersTokenizes` | pipeline/administrative/extract/parsers/regency_aggregate.py:29 | the numbers found cut the line into maximal digit-led runs: no digit before each, each ended by a character that is not a digit, dot or comma, and no digit after the last |
| `RegencyAggregate.TokenizesUnique` | pipeline/administrative/extract/parsers/regency_aggregate.py:29 | any list of numbers that cuts the line that way is the list found |
| `RegencyAggregate.StripKeepsWord` | pipeline/administrative/extract/parsers/regency_aggregate.py:25 | stripping text that starts with a word keeps the word at its start |
| `RegencyAggregate.Groups` | pipeline/administrative/extract/parsers/regency_aggregate.py:17-25 | groups exist exactly when the search matches; the canonical code is 4 digits and the name starts with "Kabupaten" or "Kota" |
| `RegencyAggregate.MatchedName` | pipeline/administrative/extract/parsers/regency_aggregate.py:21-25 | a match's code is `NN.NN`, and its stripped name starts with its keyword |
| `RegencyAggregate.KeywordName` | pipeline/administrative/extract/parsers/regency_aggregate.py:25-26 | a piece starting at a keyword starts, once stripped, with "Kabupaten" or "Kota" |
| `RegencyAggregate.MakeRow` | pipeline/administrative/extract/parsers/regency_aggregate.py:35-46 | the row carries the code, its province prefix, the name, the type the name gives, "0" urban villages, and the last four numbers as district count, rural villages, area and population |
| `RegencyAggregate.ParseLine` | pipeline/administrative/extract/parsers/regency_aggregate.py:17-46 | a line yields a row exactly when the pattern matches and it holds at least four numbers |
| `RegencyAggregate.LineRows` | pipeline/administrative/extract/parsers/regency_aggregate.py:13-19 | a raw line yields a row exactly when its stripped form is non-empty and parses |
| `RegencyAggregate.ScanLines` | pipeline/administrative/extract/parsers/regency_aggregate.py:12-46 | at most one row per line, each of the page with "0" urban villages; `ScanLinesExactly` and `ScanLinesPrefix` state which rows and in what order |
| `RegencyAggregate.ScanLinesExactly` | pipeline/administrative/extract/parsers/regency_aggregate.py:12-46 | a row is emitted exactly when some line gives it |
| `RegencyAggregate.ScanLinesPrefix` | pipeline/administrative/extract/parsers/regency_aggregate.py:12-46 | order: the rows of the first `m` lines are a prefix of the rows of all lines |
| `RegencyAggregate.ExtractAggregates` | pipeline/administrative/extract/parsers/regency_aggregate.py:9-48 | every row is of the page with "0" urban villages; `ExtractAggregatesExactly` states which rows |
| `RegencyAggregate.ExtractAggregatesExactly` | pipeline/administrative/extract/parsers/regency_aggregate.py:9-48 | a row is returned exactly when some line of the text, split at newlines, gives it |
| `RegencyAggregate.SingleLine` | pipeline/administrative/extract/parsers/regency_aggregate.py:12 | a text without newlines is one line |
| `RegencyAggregate.ExtractRegencyAggregateFromText` | pipeline/administrative/extract/parsers/regency_aggregate.py:9-48 | the line loop does what `ExtractAggregates` says |
| `DatasetBuilder.UniqueCheck` | kepmendagri_parser/builders/dataset_builder.py:23-29 | no error exactly when the keys are distinct; otherwise the error names the first key met again |
| `DatasetBuilder.AssertUnique` | kepmendagri_parser/builders/dataset_builder.py:23-29 | the `seen`-set loop does what `UniqueCheck` says |
| `DatasetBuilder.FirstUnknown` | kepmendagri_parser/builders/dataset_builder.py:42-44 | the first child whose key is not a parent key, or nothing when every child's key is known |
| `DatasetBuilder.Sample` | kepmendagri_parser/builders/dataset_builder.py:55 | the sample has at most ten keys |
| `DatasetBuilder.SortedKeys` | kepmendagri_parser/builders/dataset_builder.py:55 | the sorted parent values are ascending, distinct and exactly the parent keys |
| `DatasetBuilder.SampleSmallest` | kepmendagri_parser/builders/dataset_builder.py:55 | the sample is ascending, distinct, made of parent keys, holds every parent key when shorter than ten, and holds the smallest ones |
| `DatasetBuilder.FkCheck` | kepmendagri_parser/builders/dataset_builder.py:32-58 | no error exactly when every child's key is a parent key; otherwise the error names the first unknown value and the sample |
| `DatasetBuilder.AssertFk` | kepmendagri_parser/builders/dataset_builder.py:40-58 | the child loop does what `FkCheck` says |
| `DatasetBuilder.CapitalSet` | kepmendagri_parser/builders/dataset_builder.py:80-84 | collected capitals are never empty |
| `DatasetBuilder.CapitalSetMembers` | kepmendagri_parser/builders/dataset_builder.py:82-84 | a capital is collected for a key exactly when some district row with that key reports it |
| `DatasetBuilder.GroupCapitals` | kepmendagri_parser/builders/dataset_builder.py:80-84 | the `defaultdict(set)` loop gives every key its collected capitals |
| `DatasetBuilder.SingletonUnique` | kepmendagri_parser/builders/dataset_builder.py:90-91 | a one-element set holds only one value, so `next(iter(...))` is that value |
| `DatasetBuilder.ChooseCapital` | kepmendagri_parser/builders/dataset_builder.py:90-97 | no capital for none, the only one for one, and an error carrying the whole set for more |
| `DatasetBuilder.Finish` | kepmendagri_parser/builders/dataset_builder.py:76-77 | succeeds exactly when the codes are distinct, with the duplicate error otherwise; the result is sorted, keyed once per code, and a permutation of the records |
| `DatasetBuilder.DistrictRecords` | kepmendagri_parser/builders/dataset_builder.py:66-73 | one record per raw row, in order, with the same codes |
| `DatasetBuilder.VillageRecords` | kepmendagri_parser/builders/dataset_builder.py:144-151 | one record per raw row, in order, with the same codes |
| `DatasetBuilder.NormalizeDistrict` | kepmendagri_parser/builders/dataset_builder.py:65-77 | succeeds exactly when the raw codes are distinct; then the districts are sorted, one per code, and exactly the records of the raw rows |
| `DatasetBuilder.NormalizeVillage` | kepmendagri_parser/builders/dataset_builder.py:142-155 | succeeds exactly when the raw codes are distinct; then the villages are sorted, one per code, exactly the records of the raw rows, without notes |
| `DatasetBuilder.MapUntilError` | kepmendagri_parser/builders/dataset_builder.py:87-105 | succeeds exactly when every row does, with one result per row; otherwise it fails with the first failing row's error |
| `DatasetBuilder.RegencyOf` | kepmendagri_parser/builders/dataset_builder.py:87-105 | a regency row succeeds exactly when it has at most one capital, and then copies the row with that capital; more capitals end in the `NameError` |
| `DatasetBuilder.ProvinceOf` | kepmendagri_parser/builders/dataset_builder.py:118-135 | a province row succeeds exactly when it has at most one capital, and then copies the row with that capital; more capitals give the multiple-capitals error with the code and the set |
| `DatasetBuilder.NormalizeRegencyCorrect` | kepmendagri_parser/builders/dataset_builder.py:79-108 | the regency table is built exactly when each row has at most one capital and the codes are distinct; then it is sorted, one per code, each record fits a raw row and each raw row has a fitting record |
| `DatasetBuilder.NormalizeRegencyOutcome` | kepmendagri_parser/builders/dataset_builder.py:90-107 | when the regency table is built, and the `NameError` when capitals are ambiguous |
| `DatasetBuilder.NormalizeRegencyFits` | kepmendagri_parser/builders/dataset_builder.py:99-108 | a built regency table is sorted, keyed once per code, and each record fits a raw row |
| `DatasetBuilder.NormalizeRegencyCovers` | kepmendagri_parser/builders/dataset_builder.py:86-108 | every raw regency row has a fitting record in a built table |
| `DatasetBuilder.NormalizeProvinceCorrect` | kepmendagri_parser/builders/dataset_builder.py:110-139 | the province table is built exactly when each row has at most one capital and the codes are distinct; ambiguity gives the error of some ambiguous row; a built table is sorted, one per code, each record fits a raw row and each raw row has a fitting record |
| `DatasetBuilder.NormalizeProvinceOutcome` | kepmendagri_parser/builders/dataset_builder.py:121-138 | when the province table is built, and the error when capitals are ambiguous |
| `DatasetBuilder.NormalizeProvinceFits` | kepmendagri_parser/builders/dataset_builder.py:131-139 | a built province table is sorted, keyed once per code, and each record fits a raw row |
| `DatasetBuilder.NormalizeProvinceCovers` | kepmendagri_parser/builders/dataset_builder.py:117-139 | every raw province row has a fitting record in a built table |
| `DatasetBuilder.NormalizeDistrictRows` | kepmendagri_parser/builders/dataset_builder.py:65-77 | the loop, check and sort do what `NormalizeDistrict` says |
| `DatasetBuilder.NormalizeVillageRows` | kepmendagri_parser/builders/dataset_builder.py:142-155 | the loop, check and sort do what `NormalizeVillage` says |
| `DatasetBuilder.PickCapital` | kepmendagri_parser/builders/dataset_builder.py:88-97 | the `len(capitals)` branches do what `ChooseCapital` says |
| `DatasetBuilder.NormalizeRegencyRows` | kepmendagri_parser/builders/dataset_builder.py:79-108 | the grouping loop, the row loop, the check and the sort do what `NormalizeRegency` says |
| `DatasetBuilder.NormalizeProvinceRows` | kepmendagri_parser/builders/dataset_builder.py:110-139 | the grouping loop, the row loop, the check and the sort do what `NormalizeProvince` says |
| `DatasetBuilder.FkPassed` | kepmendagri_parser/builders/dataset_builder.py:40-58 | a passing foreign-key check means every child names an existing parent |
| `DatasetBuilder.BuildDatasetSound` | kepmendagri_parser/builders/dataset_builder.py:162-191 | the build succeeds exactly when the four normalizations and the three foreign-key checks pass; a built dataset has unique ascending codes in every list and every parent key present |
| `DatasetBuilder.BuildDatasetFromRows` | kepmendagri_parser/builders/dataset_builder.py:174-191 | the builder's steps, in order, do what `BuildDataset` says |
| `CompareRegionsId.LoadRows` | scripts/compare_regions_id.py:34-47 | every indexed code is non-empty and is the row's own key cell |
| `CompareRegionsId.LoadRowsKeys` | scripts/compare_regions_id.py:42-46 | the indexed codes are exactly the keys some row carries |
| `CompareRegionsId.LoadRowsLastWins` | scripts/compare_regions_id.py:46 | the row kept for a code is the last row carrying it |
| `CompareRegionsId.LoadCsv` | scripts/compare_regions_id.py:39-47 | the row loop does what `LoadRows` says |
| `CompareRegionsId.LoadedPresent` | scripts/compare_regions_id.py:43-46 | a loaded table holds only truthy rows |
| `CompareRegionsId.CodeDiffs` | scripts/compare_regions_id.py:86-97 | one difference per differing field, carrying both values; never repeated over distinct fields |
| `CompareRegionsId.ScanCounts` | scripts/compare_regions_id.py:74-100 | the added, removed and changed counters are the numbers of codes with no old row, with only an old row, and with a changed field; together they never exceed the codes |
| `CompareRegionsId.ScanDiffs` | scripts/compare_regions_id.py:86-97 | the differences are exactly the changed fields of the listed codes |
| `CompareRegionsId.ScanDistinct` | scripts/compare_regions_id.py:74-97 | over distinct codes no difference repeats |
| `CompareRegionsId.ScanOrder` | scripts/compare_regions_id.py:74 | over ascending codes the differences come in ascending code order |
| `CompareRegionsId.CompareCounts` | scripts/compare_regions_id.py:64-100 | the total is the number of codes in either table; added, removed and changed are the sizes of the matching sets of codes, and their sum is at most the total |
| `CompareRegionsId.AddedCount` | scripts/compare_regions_id.py:78-80 | the added counter is the number of codes whose old row is missing or empty |
| `CompareRegionsId.RemovedCount` | scripts/compare_regions_id.py:82-84 | the removed counter is the number of codes with only an old row |
| `CompareRegionsId.CompareDiffs` | scripts/compare_regions_id.py:74-97 | the differences are exactly the changed fields of codes in both tables, without repeats, in ascending code order |
| `CompareRegionsId.NonEmptyCounts` | scripts/compare_regions_id.py:78-84 | with no empty row, added and removed are the sizes of the two set differences of the codes |
| `CompareRegionsId.OnlyNewCodes` | scripts/compare_regions_id.py:78-80 | with no empty old row, the codes without an old row are the new codes minus the old |
| `CompareRegionsId.OnlyOldCodes` | scripts/compare_regions_id.py:82-84 | with no empty row, the codes with only an old row are the old codes minus the new |
| `CompareRegionsId.CompareLoaded` | scripts/compare_regions_id.py:60-84 | for loaded tables, added and removed are the set differences of their codes |
| `CompareRegionsId.DiffFields` | scripts/compare_regions_id.py:87-97 | the field loop does what `CodeDiffs` says |
| `CompareRegionsId.CompareCode` | scripts/compare_regions_id.py:75-100 | the loop body for one code does what `Visit` says |
| `CompareRegionsId.CompareAll` | scripts/compare_regions_id.py:74-100 | the code loop does what `Scan` says |
| `CompareRegionsId.CompareTables` | scripts/compare_regions_id.py:60-102 | `compare` does what `Compare` says |
| `CompareRegions.LoadRows` | scripts/compare_regions.py:8-14 | fails with `KeyError` exactly when a row lacks `code`; otherwise every indexed row's `code` is its key |
| `CompareRegions.LoadRowsKeys` | scripts/compare_regions.py:12-13 | the indexed codes are exactly the rows' codes |
| `CompareRegions.LoadRowsLastWins` | scripts/compare_regions.py:13 | the row kept for a code is the last row carrying it |
| `CompareRegions.LoadCsv` | scripts/compare_regions.py:8-14 | the row loop does what `LoadRows` says and the header is returned |
| `CompareRegions.CompareFields` | scripts/compare_regions.py:22 | the compared fields are exactly the header's fields other than `code`, in order, without new repeats |
| `CompareRegions.SortKeys` | scripts/compare_regions.py:24 | sorting the codes fails with `TypeError` exactly when a missing code sits beside a present one; otherwise it lists every code once in ascending order |
| `CompareRegions.SortedKeyMembers` | scripts/compare_regions.py:24 | without a missing code, the sorted texts list exactly the codes, ascending and once each |
| `CompareRegions.ChangedFields` | scripts/compare_regions.py:52-55 | exactly the compared fields that differ, without repeats over distinct fields |
| `CompareRegions.Classify` | scripts/compare_regions.py:29-73 | a code has no record exactly when it is UNCHANGED; a record carries the code, the status and one value per field on each side; the only error is `AttributeError` |
| `CompareRegions.StatusCorrect` | scripts/compare_regions.py:32-73 | ONLY_IN_OLD or ONLY_IN_NEW with blanks on the missing side; for codes on both sides, UNCHANGED exactly when no field differs, `CHANGED_<FIELD>` for exactly one differing field, MULTIPLE_CHANGED for two or more, and both sides' values in the record |
| `CompareRegions.ScanClassifies` | scripts/compare_regions.py:28-73 | a finished loop has classified every code |
| `CompareRegions.ScanCounts` | scripts/compare_regions.py:26-66 | one count per code; the records and the UNCHANGED count add up to the codes |
| `CompareRegions.ScanRecords` | scripts/compare_regions.py:28-73 | every record belongs to a listed code, carries its status, and is not UNCHANGED |
| `CompareRegions.ScanComplete` | scripts/compare_regions.py:28-73 | every listed code that is not UNCHANGED has a record |
| `CompareRegions.ScanStatuses` | scripts/compare_regions.py:26-66 | only the statuses of listed codes are counted |
| `CompareRegions.ScanFollows` | scripts/compare_regions.py:28-73 | over distinct codes the records follow the codes' order |
| `CompareRegions.ScanLoaded` | scripts/compare_regions.py:29-54 | over codes from the indexed files no `.get` is called on a missing row, so the loop finishes |
| `CompareRegions.CompareFails` | scripts/compare_regions.py:8-24 | the comparison fails exactly when a row lacks `code`, the old file has no header, or a missing code must be sorted with present ones; a missing `code` gives `KeyError` |
| `CompareRegions.CompareCounts` | scripts/compare_regions.py:24-66 | a successful comparison counts every code of either file once; records plus UNCHANGED equal the number of codes |
| `CompareRegions.CompareRecords` | scripts/compare_regions.py:28-73 | records belong to codes of either file and carry their status, which is not UNCHANGED; every code that is not UNCHANGED has a record; only statuses of real codes are counted |
| `CompareRegions.CompareOrder` | scripts/compare_regions.py:24-73 | the records come in strictly ascending code order |
| `CompareRegions.ChangedFieldsOf` | scripts/compare_regions.py:52-55 | the `changed` loop does what `ChangedFields` says |
| `CompareRegions.ClassifyCode` | scripts/compare_regions.py:29-73 | the loop body does what `Classify` says |
| `CompareRegions.ScanCodes` | scripts/compare_regions.py:28-73 | the code loop does what `Scan` says |
| `CompareRegions.CompareFiles` | scripts/compare_regions.py:17-73 | `compare` up to the file writing does what `Compare` says |

## Left out

- Reading the PDF (`pdfplumber`), extracting tables (`extract_page_table`), the `dbg` output and the page-count lookup in `kepmendagri_parser/pipeline/runner.py`. The document is a sequence of already-classified pages. The four parsers are function parameters.
- The CSV sinks the runner calls at the end (`kepmendagri_parser/pipeline/runner.py:118-121`). `RunPipeline` returns the four row lists those sinks would be given.
- `write_csv` in `kepmendagri_parser/builders/dataset_builder.py:10-16` and steps 194-201 of `build_dataset`. The builder returns the dataset that would be written.
- The diff-file writing at the end of `compare` in `scripts/compare_regions.py:75-87`, `write_csv` in `scripts/compare_regions_id.py`, and both scripts' `main`.
- The `ParsingState` class from `kepmendagri_parser/pipeline/state.py` is not part of this model. Only the three fields the row processor updates are modelled. `RowProcessor.ParsingState.constructor` starts them empty.
- `process_rows` takes a `page_type` it never uses. It is kept as a parameter with no effect.
- `classify_page` fetches the page's tables itself. `PageClassifier.ClassifyPage` takes the table that fetch returns.
- Unicode. All character classes are ASCII, including `\s`, `\d`, `\b` and `str.upper`. Non-ASCII letters and digits are treated as other characters.
- `CompareRegionsId.DiffFields`: `VILLAGE_FIELDS` is a Python set, whose iteration order depends on string hashing. The model visits the three fields in one fixed order, so the order of the field differences within one code is not modelled.
- `csv.DictReader` details: the reading of the file, `restkey` for overlong lines and duplicate header names. A row is a map from header fields to cells, with no cell when the line is short.
- Page numbers outside the document: a page number past the end is an `IndexError`, and a non-positive start page indexes from the end as Python does. No other I/O failure is modelled.
- `RegencyAggregate.ExtractAggregates`, `VillageParser.ExtractVillages`, `ProvinceParser.ExtractProvinces` and `RegencyParser.ExtractRegencies` state in their own contracts the shape of every row, and for provinces which rows. Which rows and in what order are stated by lemmas: membership (`ExtractAggregatesExactly`, `SubRowsExactly`, `PairsExactly`, `ExtractRegenciesBound`), completeness row by row (`PairsComplete`, `VillageEmitted`, `DistrictEmitted`) and order (`ScanLinesPrefix`, `SubRowsPrefix`, `PairsPrefix`, `ScanPrefix`). How often a row that is given twice appears in the output is not stated by any contract; only the definitions fix it.
