# OLE / Displine spreadsheet merge and award consolidation, in Dafny

This project models the two spreadsheet engines of the OLE/Displine
scripts and proves what they promise.

- **The range merge engine** is `parse_range` and `process_excel_files` in
  OLE-finalv3.py, OLE-finalv2.py, OLE2in1.py, ole3.py, ole4.py and ole2425.py.
  - A textual range such as `"CV26:DM205"` is parsed.
  - Every workbook of a folder is opened, and every sheet outside the
    blacklist (index, list, setting, TEMPLATE, STUDENTINFO) is given a last
    row. There are three policies for it:
    - a forward scan of a criteria column;
    - a backward scan for a fully populated row (ole4.py);
    - the `M4 == "✔"` gate (ole2425.py).
  - Every row of the process span that holds data is appended to an
    accumulator sheet, with the sheet's name in column S.
  - The accumulator is then normalised, depending on the script:
    - column P (and, for the Displine task, column I) is concatenated with
      column S;
    - a header row is inserted;
    - numeric zeros are cleared and marked.
- **The row-group consolidator** is `process_excel` of the "Excel Data
  Processor" window in combineawards.py, OLE-finalv2.py and OLE-finalv3.py.
  - One pass from row 2 groups rows by (class name, class number, grouping
    criteria).
  - Every group with more than one value gets the `", "`-join of its truthy
    values written into its first row, and that row is highlighted.
  - The later members of each group are deleted bottom-up.
  - The workbook is saved as `<path up to the last '.'>_processed.xlsx`.

## Modules

| file | module | contents |
|---|---|---|
| results.dfy | `Results` | `Option` and `Result`: a Python `None` and a raised exception |
| text.dfy | `Text` | `str()`/`int()` of integers, `strip`, `lower`/`upper`, `split`/`join` |
| cells.dfy | `Cells` | a cell value (`None`, a string or an integer); blank, truthy and zero |
| columns.dfy | `Columns` | `column_index_from_string`, `get_column_letter` and cell addresses |
| rangespec.dfy | `RangeSpecs` | `parse_range` and the `':'` check of `get_user_input` |
| sheets.dfy | `Sheets` | input sheets, folder entries, the blacklist and the file filter |
| extent.dfy | `Extent` | the three last-row policies (forward, backward, marker) |
| accumulator.dfy | `Accumulation` | the accumulator sheet as a class: copy, concatenation, header, zeros |
| merge.dfy | `Merge` | one sheet, one workbook, the folder, and `process_excel_files` |
| consolidate.dfy | `Consolidate` | `safe_get_value`, the grouping pass, the join, deletion and `process_excel` |

Each imperative loop of the source is a method proved against a function.

- The forward and backward scans are checked against `CriteriaExtent` and
  `ScanDown`.
- The copy, concatenation, header and zero loops are `Accumulator` methods.
- The folder and workbook loops are checked against `FolderSpec` and
  `SheetsSpec`.
- The grouping pass is checked against `Grouped`.
- The second pass and the deletion loop are `Worksheet` methods, checked
  against `ApplyRows` and `Survivors`.

## Model

| member | source | states |
|---|---|---|
| Text.IntToStringRoundTrip | OLE-finalv3.py:23-24 | `int(str(n)) == n` for every integer n, which is what reading a row number back relies on |
| Text.SplitJoin | OLE-finalv3.py:22 | joining the parts of `str.split(sep)` with sep gives back the original string |
| Text.Split | OLE-finalv3.py:22 | `split(':')` yields one more part than there are ':' characters, and no part contains ':' |
| Columns.ColumnIndex | OLE-finalv3.py:72 | `column_index_from_string` succeeds exactly on one to three letters, and then gives a column in 1..18278 |
| Columns.ColumnLabelRoundTrip | OLE-finalv3.py:72 | every column 1..18278 has a label (`get_column_letter`) that `column_index_from_string` maps back to it |
| Columns.ColumnIndexRoundTrip | OLE-finalv3.py:229 | every upper-case label of one to three letters is the label of its own index |
| Columns.AddressOfLabel | OLE-finalv3.py:62 | `ws[f'{col}{row}']` with a valid column label names that column at the given row, and raises exactly when the row is below 1 |
| RangeSpecs.ParseRangeRoundTrip | OLE-finalv3.py:21-25 | `parse_range` reads back every range whose two columns are two characters long, whatever its rows |
| RangeSpecs.ParseRangeExample | OLE-finalv3.py:21-25 | `"CV26:DM205"` parses to `("CV", 26, "DM", 205)` |
| RangeSpecs.ParseRangeNeedsOneColon | OLE2in1.py:23-27 | a range parses only when its text holds exactly one ':' |
| RangeSpecs.OneLetterColumnMisSplit | OLE2in1.py:23-27 | with a one-letter column the first row digit joins the column: `"A10"` gives column `"A1"` and row 0 |
| RangeSpecs.OneLetterOneDigitRaises | OLE2in1.py:23-27 | `"A1:..."` raises, because `int("")` fails |
| RangeSpecs.ColonCheckIsWeakerThanParsing | OLE-finalv2.py:15-22 | every range `parse_range` accepts passes the ':' check; `"A:B"` passes the check and still fails to parse |
| RangeSpecs.AskTaskRanges | OLE-finalv2.py:14-24 | `get_user_input(task)` gives both ranges iff each is present, non-empty and contains ':'; otherwise (None, None) |
| RangeSpecs.AskFolderAndRanges | ole3.py:11-26 | a folder and both ranges, iff the folder is chosen and both ranges pass the ':' check |
| RangeSpecs.AskFolderAndRange | ole2425.py:11-21 | a folder and the process range only, under the same checks |
| Sheets.RowReadableExactly | ole4.py:65-66 | with columns from `column_index_from_string`, reading a row of a non-empty span with `ws.cell` fails exactly when the row is below 1; the full-row test, the any-data test, the backward scan and the copy's raise test all read cells through `CellAt` |
| Extent.CriteriaExtentSpec | OLE-finalv3.py:60-63 | the forward scan raises iff some criteria address is unreadable; otherwise it finds the last row with a non-blank criterion, and blank rows in between do not stop it |
| Extent.ForwardScan | OLE-finalv3.py:60-63 | the loop leaves `last_row` at the last non-blank criteria row, or at crit_start_row - 1 when there is none |
| Extent.CriteriaExtentOfLetters | ole3.py:64-67 | with a valid criteria column the scan raises exactly when its range is non-empty and starts below row 1 |
| Extent.ScanDown | ole4.py:63-68 | the backward scan finds the highest fully populated row of the range, and every row above it is not full |
| Extent.BackwardScan | ole4.py:63-68 | the loop with `break` gives that row, or `proc_end_row` when no row is full; `last_row >= proc_start_row` iff the range is non-empty |
| Accumulation.RowWidth | OLE2in1.py:71-76 | an accumulator row is exactly as wide as the larger of the span and column S (19): at least both, and equal to one of them |
| Accumulation.DataRowsExact | OLE-finalv3.py:70-72 | the copied source rows are exactly the rows of the window with a non-blank span cell, in strictly increasing order |
| Accumulation.CopiedRowsProvenance | OLE-finalv3.py:70-79 | every copied row is the span of one data row, shifted to column A, with the sheet name in column S; a sheet contributes at most one row per source row |
| Accumulation.ConcatCellChanges | OLE-finalv3.py:91-96 | a cell changes iff it and column S are both truthy, and then becomes `"{P}-{S}"` |
| Accumulation.NumberedLabelsDistinct | OLE-finalv3.py:108-111 | the `T{c}` header labels of two different columns differ |
| Accumulation.ClearRowIdempotent | OLE-finalv3.py:114-119 | after the zero pass no cell holds 0; non-zero cells keep their value and mark; every zero is marked; a second pass changes nothing |
| Accumulation.Accumulator.constructor | OLE-finalv3.py:37-38 | `Workbook().active`: an empty sheet with no marks and no header |
| Accumulation.Accumulator.AppendRow | OLE-finalv3.py:73-79 | `rows_merged += 1`, and the new last row is the span followed by the sheet name in column S |
| Accumulation.Accumulator.CopyRows | OLE-finalv3.py:70-79 | appends exactly the copied rows of the window, in order, after the rows already there |
| Accumulation.Accumulator.ConcatProvenance | OLE-finalv3.py:91-105 | every row's column P (or I) becomes the concatenated cell; marks, header and row count are unchanged |
| Accumulation.Accumulator.InsertHeader | OLE-finalv2.py:111-115 | the data rows move down by one, unchanged, under a header that labels every column 1..max_column |
| Accumulation.Accumulator.ClearZeros | OLE-finalv2.py:118-123 | every numeric 0 below the header becomes the replacement (`""` here, None in OLE-finalv3.py) and is marked; nothing else changes |
| Merge.PolicyFor | ole4.py:39-40 | every script except ole2425.py parses the criteria range, and raises when it does not parse, even where (ole4.py) the range is then unused |
| Merge.FolderSpecAppend | OLE-finalv3.py:45-88 | merging a + b gives the totals of a followed by those of b, so what was merged before a file is never changed by it |
| Merge.FailingFileIsIsolated | OLE2in1.py:50-84 | a workbook that cannot be loaded adds no row and no sheet and is not counted; it is named in the error log, and the files around it merge as if it were absent |
| Merge.PartialFileKeepsFinishedSheets | OLE2in1.py:50-84 | a file that fails part-way keeps the rows of the sheets it finished, and is not counted |
| Merge.SheetSpecTagsRows | OLE-finalv3.py:55-81 | only non-blacklisted sheets are admitted, and every row they contribute has the accumulator width and their name in column S |
| Merge.FolderSpecProvenance | OLE-finalv3.py:45-81 | every merged row names, in column S, a non-blacklisted sheet of one of the folder's workbooks |
| Merge.MergedRowsProvenance | ole3.py:51-84 | the same for a script's own policy and process range |
| Merge.BackwardAdmitsEverySheet | ole4.py:63-70 | with valid columns and a non-empty range starting at row 1 or later, every non-blacklisted sheet is admitted |
| Merge.MarkerGateAdmits | ole2425.py:53-75 | a non-blacklisted sheet is merged iff M4 holds "✔", and skipped otherwise |
| Merge.ForwardAdmitsExactly | OLE-finalv3.py:60-65 | a sheet is admitted iff its criteria column holds a non-blank cell within the criteria rows |
| Merge.NormalisationKeepsRows | OLE-finalv3.py:91-119 | normalisation keeps every row and its width, changes only columns P and I and numeric zeros, leaves no zero when the zero pass runs, and never changes the sheet name in column S |
| Merge.DecideLastRow | OLE-finalv3.py:60-65 | the script's last-row loop computes the policy's decision: raise, skip or admit up to a row |
| Merge.CopyAdmitted | ole2425.py:62-71 | the copy loop appends the spec's rows; where `column_index_from_string` or `ws.cell` raises, nothing is appended |
| Merge.ProcessSheet | OLE2in1.py:53-78 | one sheet: blacklist, last row, copy; raises, admits and appends exactly as the one-sheet spec says |
| Merge.ProcessWorkbook | OLE2in1.py:50-84 | the try block of one workbook appends the file spec's rows, including those of sheets finished before a failure, and reports whether the file was read to the end |
| Merge.MergeFolder | OLE2in1.py:45-84 | the folder loop's rows, `files_processed`, `sheets_processed` and error log are those of `FolderSpec` |
| Merge.Normalise | OLE-finalv3.py:90-119 | the accumulator after the passes is the normalised rows, marks and header the script's options ask for |
| Merge.ConcatPasses | OLE-finalv3.py:90-105 | the P-and-S pass, then (for Displine) the I-and-S pass, turn the merged rows into `Concatenated` of them, leaving the fills and the header untouched |
| Merge.ZeroPass | OLE-finalv3.py:113-119 | on rows with no fill yet, every numeric 0 becomes the replacement and exactly those cells are marked pink |
| Merge.MergeParsed | OLE-finalv3.py:37-119 | once both ranges have parsed, a fresh workbook's folder loop and normalisation give `FolderSpec`'s counters and failures, its rows normalised, the zero marks and the header the script asks for, and `rows_merged` equal to the number of merged rows |
| Merge.ProcessExcelFiles | OLE-finalv3.py:28-134 | raises iff a range does not parse; otherwise the output name, counters, rows, marks and header are those of the folder spec after the script's normalisation, and `rows_merged` is the number of copied rows |
| Consolidate.SafeValue | combineawards.py:59-63 | `safe_get_value` gives `""` for None, and otherwise the cell's text with exactly its leading and trailing whitespace removed: the result has no whitespace at either end and the text is the result with only whitespace around it |
| Text.StripSurrounded | combineawards.py:63 | `strip()` gives back any text with no whitespace at its ends, whatever whitespace surrounds it |
| Consolidate.PaddingIgnored | combineawards.py:59-63 | in combineawards.py whitespace around a cell's text does not change its key part: `" x "` and `"x"` key alike |
| Consolidate.PaddedNumberKeysAsItsText | combineawards.py:59-63 | the number n and the text `str(n)` with any whitespace around it give the same key part |
| Consolidate.NameCaseIgnored | combineawards.py:85 | class names that differ only in the case of ASCII letters give the same class-name part, in combineawards.py and in OLE-finalv2.py:222 alike |
| Consolidate.IntegerSelectorRoundTrip | combineawards.py:70 | the column entry `"n"` selects the 0-based index n - 1 |
| Consolidate.Selector | OLE-finalv3.py:228-229 | a converted letter entry is a 0-based index below 18278 |
| Consolidate.LetterSelectorRoundTrip | OLE-finalv3.py:228-229 | the entry holding the label of column n selects the 0-based index n - 1 (so "C" selects 2) |
| Consolidate.LetterSelectorCaseAndPadding | OLE-finalv2.py:207-208 | whitespace around an entry and the case of its letters do not change the column it selects |
| Consolidate.PaddedLowerLabelSelects | OLE-finalv2.py:207-208 | a lower-case label with whitespace around it (" c ") selects the same index as the label itself |
| Consolidate.PyIndex | OLE-finalv2.py:222-224 | `row[i]` reads position i, or \|row\| + i for a negative i, and raises IndexError outside -\|row\|..\|row\|-1 |
| Consolidate.RawName | OLE-finalv2.py:222 | the class name holds no upper-case letter, is `""` unless the value is truthy, and raises exactly on a non-zero number |
| Consolidate.KeyedHasTruthyPart | combineawards.py:89-91 | a grouped row's key always has a truthy part; rows with all three parts falsy are skipped |
| Consolidate.RawNumericNameRaises | OLE-finalv3.py:240 | in OLE-finalv2.py and OLE-finalv3.py a non-zero number in the class-name column makes the row raise |
| Consolidate.NormalisedRowsAgree | combineawards.py:85-104 | in combineawards.py a row's outcome depends only on the stripped text of its four selected cells |
| Consolidate.NumberKeysAsItsText | combineawards.py:59-63 | the number n and the string `str(n)` give the same key part |
| Consolidate.FindGroup | combineawards.py:95 | `key in groups`: the index of the group holding the key, or none when no group holds it |
| Consolidate.GroupRows | combineawards.py:82-110 | the first-pass loop computes `Grouped` of the rows' outcomes: the groups in insertion order and `rows_to_delete`, or the failure of the first row that raises |
| Consolidate.GroupStep | combineawards.py:84-110 | one row of the first pass stops it exactly when the row raises, and then the whole pass fails with that row's failure; otherwise the groups are those of the pass over one more row |
| Consolidate.FileRow | combineawards.py:95-104 | a keyed row is filed as the first pass files it (appended to its key's group and to `rows_to_delete`, or opening a new group), and the key-to-group map stays exact |
| Consolidate.GroupedConsistent | OLE-finalv2.py:229-240 | when no row raises there is one group per key, in order of first occurrence; each holds exactly the rows filed under its key, ascending, with their values in order; `rows_to_delete` is exactly the rows repeating an earlier key |
| Consolidate.GroupedFails | combineawards.py:105-110 | the pass fails iff some row raises, and then with the failure of the first such row |
| Consolidate.AnchorsKept | OLE-finalv2.py:231-240 | an anchor (`first_row`) is never marked for deletion |
| Consolidate.MembersDeleted | OLE-finalv2.py:237-240 | every member of a group except its anchor is marked for deletion |
| Consolidate.TruthyStringsSpec | OLE-finalv2.py:251 | the join succeeds iff every truthy value is a string; every joined part is a non-empty string taken from the values |
| Consolidate.TruthyStringsAppend | OLE-finalv2.py:251 | the joined parts of a + b are those of a followed by those of b, so encounter order is kept |
| Consolidate.CombinationFails | OLE-finalv2.py:249-251 | the second pass fails iff the join of some group with more than one value fails |
| Consolidate.CombinationKeys | OLE-finalv2.py:249-254 | it writes exactly the anchors of the groups with more than one value |
| Consolidate.CombinationValues | combineawards.py:113-120 | each such anchor gets the `", "`-join of its own group's truthy values |
| Consolidate.ApplyRowsWrite | combineawards.py:120-124 | writing one more anchor rewrites that row's value cell and highlights the row; the other rows are unchanged |
| Consolidate.Worksheet.WriteGroups | combineawards.py:113-124 | the second-pass loop leaves the sheet with every written anchor rewritten and highlighted, and every other row unchanged |
| Consolidate.DeleteBelowDeleted | combineawards.py:126-128 | when every row deleted so far lies below row m, deleting position m removes exactly sheet row m |
| Consolidate.Worksheet.DeleteRows | combineawards.py:126-128 | deleting `sorted(rows_to_delete, reverse=True)` one row at a time removes exactly the marked rows and keeps the others in order |
| Consolidate.SurvivorsLength | combineawards.py:126-128 | the deletion leaves the original number of rows minus the number marked |
| Consolidate.SurvivorAt | OLE-finalv2.py:259-260 | a surviving row r ends at r minus the number of deleted rows above it |
| Consolidate.WriteThenDelete | OLE-finalv3.py:268-279 | after writing and deleting, the row count drops by the number deleted; each surviving row r sits at r - 1 minus the deleted rows above it, rewritten iff it is a written anchor |
| Consolidate.ConsolidatedAnchors | OLE-finalv3.py:249-279 | every anchor survives; a group with more than one value has its anchor written with its join, and all its other rows are deleted |
| Consolidate.StringJoinsSucceed | combineawards.py:113-116 | when every grouped value is a string, no join raises |
| Consolidate.NormalisedJoinsSucceed | combineawards.py:97-116 | so in combineawards.py the second pass never fails on a join |
| Consolidate.NormalisedRunSaves | combineawards.py:70-132 | in combineawards.py, with a value column of 1 or more, a first pass that succeeds is always followed by a save; any failure is the first pass's own |
| Consolidate.WrittenAnchorsInRange | OLE-finalv3.py:238-279 | every written anchor is a row of the sheet whose value cell was read, and every deleted row is a data row |
| Consolidate.OutputPathReplacesExtension | combineawards.py:131 | `"a.b.xlsx"` becomes `"a.b_processed.xlsx"`: only the last extension is replaced |
| Consolidate.OutputPathWithoutDot | OLE-finalv3.py:281 | a path without a '.' keeps its whole name before `_processed.xlsx` |
| Consolidate.ProcessExcel | combineawards.py:65-137 | on failure the sheet is unchanged and nothing is saved; on success the sheet is the consolidation spec and the output path is `OutputPath(file_path)` |

## Left out

- The Tk windows, dialogs, message boxes, `print` and logging are left
  out. The dialog answers become parameters of the `Ask*` functions.
- File I/O is left out: `os.listdir`, `load_workbook`, `wb.save`,
  `wb.close` and `os.path.join`.
  - The folder is a given sequence of entries, in listing order.
  - A workbook's I/O failure is a given number of sheets read before it
    fails.
  - Save errors are not modelled.
  - The sheet lookup `wb[sheet_name]` is given: the consolidator receives
    the worksheet.
- Fill colours are left out. The pink fill is a per-cell mark, and the
  yellow fill is a per-row highlight flag.
- Cell values are None, strings and integers only, with no floats or
  booleans. As a result:
  - the `0.0` comparison of OLE-finalv2.py:121 coincides with the `0` test;
  - `str()` of a float is not modelled.
- `str.lower`/`str.upper` are modelled for ASCII letters only. `int()`
  accepts surrounding whitespace, a sign and ASCII digits; underscores and
  non-ASCII digits are not modelled.
- Cell addresses do not accept `$`. The openpyxl limit of 1048576 rows is
  not modelled.
- Consolidate.ProcessExcel: a row's cells are the cells the model is given.
  openpyxl pads every row from `iter_rows` to `max_column`, so the model
  is weaker where rows of different lengths make an index raise that
  openpyxl would let through.
- Consolidate.ProcessExcel: when the second pass fails part-way, the
  source has already changed the in-memory sheet. The model checks that the
  whole pass can succeed before writing. The unsaved workbook is discarded
  in both cases, so the saved result is the same.
- In the consolidator, Python's equality between a number and a float or a
  bool in the key (`1 == 1.0 == True`) is not modelled.
- searchinmul8.py, selectsheets.py and "Test searchmultiplesheet.py" are
  not part of this model.
- The `__main__` blocks are not modelled: the default ranges of
  OLE-finalv3.py:306-309 and the task sequencing. The default OLE range is
  checked by `RangeSpecs.ParseRangeExample`.
