/**
 * process_excel_files: merge a range of rows from every sheet of every
 * workbook in a folder into one output sheet, under the extent policy and
 * the normalisation passes of each merge script.
 */
module Merge {
  import opened Results
  import opened Text
  import opened Cells
  import opened Columns
  import opened RangeSpecs
  import opened Sheets
  import opened Extent
  import opened Accumulation

  /** The six merge scripts, which differ in extent policy and normalisation. */
  datatype Script = FinalV3 | FinalV2 | TwoInOne | Ole4 | Ole3 | Ole2425

  /** How a sheet's last row is found (and whether the sheet is merged at all). */
  datatype ExtentPolicy =
    | ForwardCriteria(crit: RangeSpec)   // last non-blank cell of the criteria column
    | BackwardFullRow                     // last fully populated row of the process range (ole4)
    | MarkerGate                          // the whole process range, when M4 holds the check mark (ole2425)

  function PolicyOf(script: Script, crit: RangeSpec): ExtentPolicy
  {
    match script
    case Ole4 => BackwardFullRow
    case Ole2425 => MarkerGate
    case _ => ForwardCriteria(crit)
  }

  /** Every script but ole2425 takes, and parses, a criteria range. */
  predicate UsesCriteria(script: Script) { script != Ole2425 }

  /** The passes run over the accumulator after the folder has been read. */
  datatype Normalisation = Normalisation(concatP: bool, concatI: bool, header: Option<HeaderStyle>, zeros: Option<Cell>)

  /** Column P, which the concatenation pass rewrites as "P-S". */
  const PColumn: nat := 16
  /** Column I, which the Displine task also concatenates with column S. */
  const IColumn: nat := 9

  function NormalisationOf(script: Script, task: string): Normalisation
  {
    match script
    case FinalV3 => Normalisation(true, task == "Displine", Some(Numbered), Some(Empty))
    case FinalV2 => Normalisation(true, task == "Displine", Some(Constant("t1")), Some(Str("")))
    case Ole3 => Normalisation(false, false, None, None)
    case _ => Normalisation(true, false, None, None)
  }

  /** merge_{task}.xlsx for the task-aware scripts, merge.xlsx for the others. */
  function OutputName(script: Script, task: string): string
  {
    match script
    case FinalV3 => "merge_" + task + ".xlsx"
    case FinalV2 => "merge_" + task + ".xlsx"
    case TwoInOne => "merge_" + task + ".xlsx"
    case _ => "merge.xlsx"
  }

  /** column_index_from_string of both process columns; None where either raises. */
  function Span(proc: RangeSpec): Option<(int, int)>
  {
    match (ColumnIndex(proc.startCol), ColumnIndex(proc.endCol))
    case (Some(c1), Some(c2)) => Some((c1 as int, c2 as int))
    case _ => None
  }

  /** The width of every accumulator row; 19 (column S) when no row can ever be copied. */
  function AccWidth(proc: RangeSpec): (w: nat)
    ensures w >= ProvenanceColumn
  {
    match Span(proc)
    case None => ProvenanceColumn
    case Some(span) => RowWidth(span.0, span.1)
  }

  /** The outcome of the last-row decision for one sheet. */
  datatype Decision = Raise | Skip | Admit(last: int)

  function Decide(policy: ExtentPolicy, proc: RangeSpec, ws: Sheet): Decision
  {
    match policy
    case ForwardCriteria(crit) =>
      (match CriteriaExtent(ws, crit.startCol, crit.startRow, crit.endRow)
       case Raised => Raise
       case Found(r) => Admit(r)
       case Exhausted => Skip)
    case BackwardFullRow =>
      if proc.endRow < proc.startRow then Skip
      else (match Span(proc)
        case None => Raise
        case Some(span) =>
          (match ScanDown(ws, span.0, span.1, proc.startRow, proc.endRow)
           case Raised => Raise
           case Found(r) => Admit(r)
           case Exhausted => Admit(proc.endRow)))
    case MarkerGate =>
      if MarkerSet(ws) then Admit(proc.endRow) else Skip
  }

  datatype SheetOutcome = Raises | Skipped | Admitted(rows: seq<seq<Cell>>)

  /** The copy of rows proc.startRow..last of an admitted sheet. */
  function CopyOutcome(proc: RangeSpec, ws: Sheet, last: int, name: string): SheetOutcome
  {
    if last < proc.startRow then Admitted([])
    else match Span(proc)
      case None => Raises
      case Some(span) =>
        if !RowReadable(ws, proc.startRow, span.0, span.1) then Raises
        else Admitted(CopiedRows(ws, span.0, span.1, proc.startRow, last, name))
  }

  /** What one sheet of a workbook does to the merge. */
  function SheetSpec(policy: ExtentPolicy, proc: RangeSpec, sh: NamedSheet): SheetOutcome
  {
    if sh.name in Blacklist then Skipped
    else match Decide(policy, proc, sh.ws)
      case Raise => Raises
      case Skip => Skipped
      case Admit(last) => CopyOutcome(proc, sh.ws, last, sh.name)
  }

  /** What one sheet does to the merge, as a function of the sheet: SheetSpec for a given policy and process range. */
  function StepOf(policy: ExtentPolicy, proc: RangeSpec): NamedSheet -> SheetOutcome
  {
    sh => SheetSpec(policy, proc, sh)
  }

  /** step is SheetSpec for this policy and range (stated so that it is unfolded only where SheetSpec itself appears). */
  ghost predicate StepIs(step: NamedSheet -> SheetOutcome, policy: ExtentPolicy, proc: RangeSpec)
  {
    forall sh {:trigger SheetSpec(policy, proc, sh)} :: step(sh) == SheetSpec(policy, proc, sh)
  }

  lemma StepOfIs(policy: ExtentPolicy, proc: RangeSpec)
    ensures StepIs(StepOf(policy, proc), policy, proc)
  {
  }

  /** What one workbook contributes: its rows, its admitted sheets, and whether it was read to the end. */
  datatype FileOutcome = FileOutcome(rows: seq<seq<Cell>>, admitted: nat, ok: bool)

  /** The sheets of a workbook in order, stopping at the first that raises. */
  function SheetsSpec(step: NamedSheet -> SheetOutcome, sheets: seq<NamedSheet>): FileOutcome
    decreases |sheets|
  {
    if sheets == [] then FileOutcome([], 0, true)
    else
      var prev := SheetsSpec(step, sheets[..|sheets| - 1]);
      if !prev.ok then prev
      else match step(sheets[|sheets| - 1])
        case Raises => prev.(ok := false)
        case Skipped => prev
        case Admitted(rs) => FileOutcome(prev.rows + rs, prev.admitted + 1, true)
  }

  /** The number of sheets of a workbook handled before it raises an I/O error. */
  function Readable(f: WorkbookFile): nat
  {
    if f.failAfter.Some? && f.failAfter.value < |f.sheets| then f.failAfter.value else |f.sheets|
  }

  function FileSpec(step: NamedSheet -> SheetOutcome, f: WorkbookFile): FileOutcome
  {
    var o := SheetsSpec(step, f.sheets[..Readable(f)]);
    if f.failAfter.Some? then o.(ok := false) else o
  }

  /** The merged rows and the counters after a sequence of folder entries. */
  datatype MergeTotals = MergeTotals(rows: seq<seq<Cell>>, filesProcessed: nat, sheetsProcessed: nat, failed: seq<string>)

  /** The totals after one more workbook, whose outcome is o. */
  function AddFile(t: MergeTotals, fileName: string, o: FileOutcome): MergeTotals
  {
    MergeTotals(t.rows + o.rows,
                t.filesProcessed + (if o.ok then 1 else 0),
                t.sheetsProcessed + o.admitted,
                t.failed + (if o.ok then [] else [fileName]))
  }

  function FolderSpec(step: NamedSheet -> SheetOutcome, files: seq<WorkbookFile>): MergeTotals
    decreases |files|
  {
    if files == [] then MergeTotals([], 0, 0, [])
    else
      var prev := FolderSpec(step, files[..|files| - 1]);
      var f := files[|files| - 1];
      if IsWorkbookFile(f.fileName) then AddFile(prev, f.fileName, FileSpec(step, f)) else prev
  }

  function Combine(a: MergeTotals, b: MergeTotals): MergeTotals
  {
    MergeTotals(a.rows + b.rows, a.filesProcessed + b.filesProcessed, a.sheetsProcessed + b.sheetsProcessed, a.failed + b.failed)
  }

  lemma CombineAddFile(x: MergeTotals, y: MergeTotals, fileName: string, o: FileOutcome)
    ensures Combine(x, AddFile(y, fileName, o)) == AddFile(Combine(x, y), fileName, o)
  {
    assert x.rows + (y.rows + o.rows) == (x.rows + y.rows) + o.rows;
    var e := if o.ok then [] else [fileName];
    assert x.failed + (y.failed + e) == (x.failed + y.failed) + e;
  }

  /**
   * Merging a folder is merging its entries one after the other: the totals
   * of a + b are those of a followed by those of b. In particular what was
   * merged before a file is never lost or changed by it.
   */
  lemma {:induction false} FolderSpecAppend(step: NamedSheet -> SheetOutcome, a: seq<WorkbookFile>, b: seq<WorkbookFile>)
    ensures FolderSpec(step, a + b) == Combine(FolderSpec(step, a), FolderSpec(step, b))
    decreases |b|
  {
    if b == [] {
      assert a + b == a;
      var t := FolderSpec(step, a);
      assert t.rows + [] == t.rows && t.failed + [] == t.failed;
    } else {
      var b0 := b[..|b| - 1];
      var f := b[|b| - 1];
      assert (a + b)[..|a + b| - 1] == a + b0;
      assert (a + b)[|a + b| - 1] == f;
      FolderSpecAppend(step, a, b0);
      if IsWorkbookFile(f.fileName) {
        CombineAddFile(FolderSpec(step, a), FolderSpec(step, b0), f.fileName, FileSpec(step, f));
      }
    }
  }

  /**
   * Error isolation: a workbook that cannot be loaded contributes no row
   * and no sheet, is not counted as processed, and is named in the error
   * log; the files before and after it are merged as if it were absent.
   */
  lemma FailingFileIsIsolated(step: NamedSheet -> SheetOutcome, a: seq<WorkbookFile>, bad: WorkbookFile, b: seq<WorkbookFile>)
    requires IsWorkbookFile(bad.fileName) && bad.failAfter == Some(0)
    ensures var t := FolderSpec(step, a + [bad] + b);
            var ta := FolderSpec(step, a);
            var tb := FolderSpec(step, b);
            t.rows == ta.rows + tb.rows &&
            t.filesProcessed == ta.filesProcessed + tb.filesProcessed &&
            t.sheetsProcessed == ta.sheetsProcessed + tb.sheetsProcessed &&
            t.failed == ta.failed + [bad.fileName] + tb.failed
  {
    assert bad.sheets[..Readable(bad)] == [];
    assert FileSpec(step, bad) == FileOutcome([], 0, false);
    assert [bad][..0] == [];
    assert FolderSpec(step, [bad][..0]) == MergeTotals([], 0, 0, []);
    assert [] + [bad.fileName] == [bad.fileName];
    var tbad := FolderSpec(step, [bad]);
    assert tbad == MergeTotals([], 0, 0, [bad.fileName]);
    FolderSpecAppend(step, a, [bad]);
    FolderSpecAppend(step, a + [bad], b);
    var ta := FolderSpec(step, a);
    assert ta.rows + [] == ta.rows;
  }

  /** A file that fails part-way keeps the rows of the sheets it finished, is named in the log, and is not counted. */
  lemma PartialFileKeepsFinishedSheets(step: NamedSheet -> SheetOutcome, f: WorkbookFile, k: nat)
    requires f.failAfter == Some(k) && k <= |f.sheets|
    ensures FileSpec(step, f).rows == SheetsSpec(step, f.sheets[..k]).rows
    ensures !FileSpec(step, f).ok
  {
  }

  /** Every sheet step admits only non-blacklisted sheets and tags each row it contributes with the sheet's name in column S. */
  ghost predicate TagsRows(step: NamedSheet -> SheetOutcome, width: nat)
  {
    width >= ProvenanceColumn &&
    forall sh :: step(sh).Admitted? ==>
      sh.name !in Blacklist &&
      forall row :: row in step(sh).rows ==> |row| == width && row[ProvenanceColumn - 1] == Str(sh.name)
  }

  /** SheetSpec admits only non-blacklisted sheets, and every row it copies carries the sheet's name in column S. */
  lemma SheetSpecTagsRows(policy: ExtentPolicy, proc: RangeSpec, sh: NamedSheet)
    ensures SheetSpec(policy, proc, sh).Admitted? ==>
      sh.name !in Blacklist &&
      forall row :: row in SheetSpec(policy, proc, sh).rows ==> |row| == AccWidth(proc) && row[ProvenanceColumn - 1] == Str(sh.name)
  {
    if SheetSpec(policy, proc, sh).Admitted? {
      var last := Decide(policy, proc, sh.ws).last;
      if last >= proc.startRow {
        var span := Span(proc).value;
        CopiedRowsProvenance(sh.ws, span.0, span.1, proc.startRow, last, sh.name);
        var rs := SheetSpec(policy, proc, sh).rows;
        forall row | row in rs
          ensures |row| == AccWidth(proc) && row[ProvenanceColumn - 1] == Str(sh.name)
        {
          var i :| 0 <= i < |rs| && rs[i] == row;
        }
      }
    }
  }

  lemma StepOfTagsRows(policy: ExtentPolicy, proc: RangeSpec)
    ensures TagsRows(StepOf(policy, proc), AccWidth(proc))
  {
    forall sh | StepOf(policy, proc)(sh).Admitted?
      ensures sh.name !in Blacklist &&
        forall row :: row in StepOf(policy, proc)(sh).rows ==> |row| == AccWidth(proc) && row[ProvenanceColumn - 1] == Str(sh.name)
    {
      SheetSpecTagsRows(policy, proc, sh);
    }
  }

  /** Every row a sheet sequence contributes has the given width and names, in column S, one of its non-blacklisted sheets. */
  lemma {:induction false} SheetsSpecProvenance(step: NamedSheet -> SheetOutcome, width: nat, sheets: seq<NamedSheet>)
    requires TagsRows(step, width)
    ensures forall row :: row in SheetsSpec(step, sheets).rows ==>
      |row| == width &&
      exists j :: 0 <= j < |sheets| && sheets[j].name !in Blacklist && row[ProvenanceColumn - 1] == Str(sheets[j].name)
    decreases |sheets|
  {
    if sheets != [] {
      var n := |sheets| - 1;
      var init := sheets[..n];
      SheetsSpecProvenance(step, width, init);
      var prev := SheetsSpec(step, init);
      forall row | row in prev.rows
        ensures exists j :: 0 <= j < |sheets| && sheets[j].name !in Blacklist && row[ProvenanceColumn - 1] == Str(sheets[j].name)
      {
        var j :| 0 <= j < |init| && init[j].name !in Blacklist && row[ProvenanceColumn - 1] == Str(init[j].name);
        assert sheets[j] == init[j];
      }
    }
  }

  /**
   * Provenance: every merged row has the given width and names, in column
   * S, a non-blacklisted sheet of one of the folder's workbooks.
   */
  lemma {:induction false} FolderSpecProvenance(step: NamedSheet -> SheetOutcome, width: nat, files: seq<WorkbookFile>)
    requires TagsRows(step, width)
    ensures forall row :: row in FolderSpec(step, files).rows ==>
      |row| == width &&
      exists i, j :: 0 <= i < |files| && 0 <= j < |files[i].sheets| && files[i].sheets[j].name !in Blacklist &&
        row[ProvenanceColumn - 1] == Str(files[i].sheets[j].name)
    decreases |files|
  {
    if files != [] {
      var n := |files| - 1;
      var init := files[..n];
      FolderSpecProvenance(step, width, init);
      var prev := FolderSpec(step, init);
      forall row | row in prev.rows
        ensures exists i, j ::
          0 <= i < |files| && 0 <= j < |files[i].sheets| && files[i].sheets[j].name !in Blacklist &&
          row[ProvenanceColumn - 1] == Str(files[i].sheets[j].name)
      {
        var i, j :| 0 <= i < |init| && 0 <= j < |init[i].sheets| && init[i].sheets[j].name !in Blacklist &&
          row[ProvenanceColumn - 1] == Str(init[i].sheets[j].name);
        assert files[i] == init[i];
      }
      var f := files[n];
      var readable := f.sheets[..Readable(f)];
      SheetsSpecProvenance(step, width, readable);
      forall row | row in FileSpec(step, f).rows
        ensures exists j :: 0 <= j < |f.sheets| && f.sheets[j].name !in Blacklist && row[ProvenanceColumn - 1] == Str(f.sheets[j].name)
      {
        var j :| 0 <= j < |readable| && readable[j].name !in Blacklist && row[ProvenanceColumn - 1] == Str(readable[j].name);
        assert readable[j] == f.sheets[j];
      }
    }
  }

  /** The merged rows of a folder under a script's policy are as wide as the accumulator and each names its source sheet in column S. */
  lemma MergedRowsProvenance(policy: ExtentPolicy, proc: RangeSpec, files: seq<WorkbookFile>)
    ensures forall row :: row in FolderSpec(StepOf(policy, proc), files).rows ==>
      |row| == AccWidth(proc) &&
      exists i, j :: 0 <= i < |files| && 0 <= j < |files[i].sheets| && files[i].sheets[j].name !in Blacklist &&
        row[ProvenanceColumn - 1] == Str(files[i].sheets[j].name)
  {
    StepOfTagsRows(policy, proc);
    FolderSpecProvenance(StepOf(policy, proc), AccWidth(proc), files);
  }

  /**
   * ole4: once the labels are valid and the range starts at row 1 or
   * below it is non-empty, every sheet that is not blacklisted is admitted
   * (last_row never falls below the start row), so the backward policy
   * never drops a sheet.
   */
  lemma BackwardAdmitsEverySheet(proc: RangeSpec, sh: NamedSheet)
    requires sh.name !in Blacklist && Span(proc).Some?
    requires 1 <= proc.startRow <= proc.endRow
    ensures SheetSpec(BackwardFullRow, proc, sh).Admitted?
    ensures Decide(BackwardFullRow, proc, sh.ws).last >= proc.startRow
  {
  }

  /** ole2425: a sheet that is not blacklisted is merged exactly when its M4 holds the check mark (and the copy does not raise). */
  lemma MarkerGateAdmits(proc: RangeSpec, sh: NamedSheet)
    requires sh.name !in Blacklist
    requires Span(proc).Some? && proc.startRow >= 1
    ensures SheetSpec(MarkerGate, proc, sh).Admitted? <==> MarkerSet(sh.ws)
    ensures SheetSpec(MarkerGate, proc, sh).Skipped? <==> !MarkerSet(sh.ws)
  {
  }

  /**
   * The forward policy admits a sheet exactly when its criteria column
   * can be read and holds a non-blank cell within the criteria rows.
   */
  lemma ForwardAdmitsExactly(crit: RangeSpec, proc: RangeSpec, sh: NamedSheet)
    requires sh.name !in Blacklist
    requires !CriteriaExtent(sh.ws, crit.startCol, crit.startRow, crit.endRow).Raised?
    ensures Decide(ForwardCriteria(crit), proc, sh.ws).Admit? <==>
      exists r :: crit.startRow <= r <= crit.endRow && HasCriterion(sh.ws, crit.startCol, r)
  {
    CriteriaExtentSpec(sh.ws, crit.startCol, crit.startRow, crit.endRow);
  }

  /** The extent policy of a script, parsing its criteria range where it takes one. */
  function PolicyFor(script: Script, criteriaRange: string): (r: Result<ExtentPolicy>)
    ensures r.Err? <==> UsesCriteria(script) && ParseRange(criteriaRange).Err?
  {
    if !UsesCriteria(script) then Ok(MarkerGate)
    else match ParseRange(criteriaRange)
      case Err(m) => Err(m)
      case Ok(crit) => Ok(PolicyOf(script, crit))
  }

  predicate Rectangular(rows: seq<seq<Cell>>, width: nat)
  {
    forall i :: 0 <= i < |rows| ==> |rows[i]| == width
  }

  /** The concatenation pass for one column over every data row. */
  function ConcatAll(rows: seq<seq<Cell>>, col: nat, width: nat): (r: seq<seq<Cell>>)
    requires Rectangular(rows, width) && width >= ProvenanceColumn && 1 <= col <= width
    ensures |r| == |rows| && Rectangular(r, width)
  {
    seq(|rows|, i requires 0 <= i < |rows| => ConcatRow(rows[i], col))
  }

  /** The data rows after the concatenation passes a normalisation asks for. */
  function Concatenated(rows: seq<seq<Cell>>, norm: Normalisation, width: nat): (r: seq<seq<Cell>>)
    requires Rectangular(rows, width) && width >= ProvenanceColumn
    ensures |r| == |rows| && Rectangular(r, width)
  {
    var r1 := if norm.concatP then ConcatAll(rows, PColumn, width) else rows;
    if norm.concatI then ConcatAll(r1, IColumn, width) else r1
  }

  /** The data rows as saved: concatenated, then with numeric zeros replaced when the script clears them. */
  function NormalisedRows(rows: seq<seq<Cell>>, norm: Normalisation, width: nat): seq<seq<Cell>>
    requires Rectangular(rows, width) && width >= ProvenanceColumn
  {
    var c := Concatenated(rows, norm, width);
    if norm.zeros.Some? then ZeroedRows(c, norm.zeros.value) else c
  }

  /** The pink-fill flags as saved: exactly the cells that held a numeric 0 before the zero pass. */
  function NormalisedFills(rows: seq<seq<Cell>>, norm: Normalisation, width: nat): seq<seq<bool>>
    requires Rectangular(rows, width) && width >= ProvenanceColumn
  {
    var c := Concatenated(rows, norm, width);
    if norm.zeros.Some? then ZeroMarks(c, width) else seq(|c|, _ => Unfilled(width))
  }

  /** Every row with its numeric zeros replaced. */
  function ZeroedRows(rows: seq<seq<Cell>>, replacement: Cell): seq<seq<Cell>>
  {
    seq(|rows|, i requires 0 <= i < |rows| => ClearRow(rows[i], replacement))
  }

  /** The fill flags of the zero pass over unfilled rows: set exactly on the numeric zeros. */
  function ZeroMarks(rows: seq<seq<Cell>>, width: nat): seq<seq<bool>>
    requires Rectangular(rows, width)
  {
    seq(|rows|, i requires 0 <= i < |rows| => MarkRow(rows[i], Unfilled(width)))
  }

  function HeaderRow(style: HeaderStyle, n: nat): seq<Cell>
  {
    seq(n, j requires 0 <= j < n => Str(HeaderLabel(style, j + 1)))
  }

  /**
   * The normalisation passes keep every row and its width, touch only
   * columns P and I (by concatenation) and numeric zeros (when the zero
   * pass runs, none is left), and so never change the sheet name in
   * column S.
   */
  lemma NormalisationKeepsRows(rows: seq<seq<Cell>>, norm: Normalisation, width: nat)
    requires Rectangular(rows, width) && width >= ProvenanceColumn
    requires norm.zeros.Some? ==> Blank(norm.zeros.value)
    ensures |NormalisedRows(rows, norm, width)| == |rows| && Rectangular(NormalisedRows(rows, norm, width), width)
    ensures forall i, j :: 0 <= i < |rows| && 0 <= j < width && j != PColumn - 1 && j != IColumn - 1 ==>
      NormalisedRows(rows, norm, width)[i][j] ==
        if norm.zeros.Some? && IsZero(rows[i][j]) then norm.zeros.value else rows[i][j]
    ensures forall i :: 0 <= i < |rows| && rows[i][ProvenanceColumn - 1].Str? ==>
      NormalisedRows(rows, norm, width)[i][ProvenanceColumn - 1] == rows[i][ProvenanceColumn - 1]
    ensures norm.zeros.Some? ==> forall i, j :: 0 <= i < |rows| && 0 <= j < width ==> !IsZero(NormalisedRows(rows, norm, width)[i][j])
  {
    var c := Concatenated(rows, norm, width);
    assert forall i, j :: 0 <= i < |rows| && 0 <= j < width && j != PColumn - 1 && j != IColumn - 1 ==> c[i][j] == rows[i][j];
  }

  /** The result of one run of process_excel_files. */
  datatype MergeOutput = MergeOutput(
    fileName: string,
    header: Option<seq<Cell>>,
    rows: seq<seq<Cell>>,
    fills: seq<seq<bool>>,
    filesProcessed: nat,
    sheetsProcessed: nat,
    rowsMerged: nat,
    failed: seq<string>)

  /** The last-row decision of one sheet, computed as the script does. */
  method DecideLastRow(policy: ExtentPolicy, proc: RangeSpec, ws: Sheet) returns (d: Decision)
    ensures d == Decide(policy, proc, ws)
  {
    match policy {
      case ForwardCriteria(crit) =>
        var ok, last := ForwardScan(ws, crit.startCol, crit.startRow, crit.endRow);
        CriteriaExtentSpec(ws, crit.startCol, crit.startRow, crit.endRow);
        if !ok {
          d := Raise;
        } else if last >= crit.startRow {
          d := Admit(last);
        } else {
          d := Skip;
        }
      case BackwardFullRow =>
        if proc.endRow < proc.startRow {
          return Skip;
        }
        var span := Span(proc);
        if span.None? {
          return Raise;
        }
        var ok, last := BackwardScan(ws, span.value.0, span.value.1, proc.startRow, proc.endRow);
        d := if ok then Admit(last) else Raise;
      case MarkerGate =>
        d := if MarkerSet(ws) then Admit(proc.endRow) else Skip;
    }
  }

  /** The copy loop of an admitted sheet; raised where column_index_from_string or ws.cell raises. */
  method CopyAdmitted(acc: Accumulator, proc: RangeSpec, ws: Sheet, last: int, name: string) returns (raised: bool)
    requires acc.Valid() && acc.Unmarked() && acc.width == AccWidth(proc) && acc.header.None?
    modifies acc
    ensures acc.Valid() && acc.Unmarked() && acc.header.None?
    ensures raised == CopyOutcome(proc, ws, last, name).Raises?
    ensures !raised ==> acc.rows == old(acc.rows) + CopyOutcome(proc, ws, last, name).rows
    ensures raised ==> acc.rows == old(acc.rows)
  {
    if last < proc.startRow {
      return false;
    }
    var span := Span(proc);
    if span.None? {
      return true;
    }
    var c1, c2 := span.value.0, span.value.1;
    RowReadableExactly(ws, proc.startRow, c1, c2);
    if c1 <= c2 && proc.startRow < 1 {
      return true;
    }
    acc.CopyRows(ws, c1, c2, proc.startRow, last, name);
    raised := false;
  }

  /**
   * One sheet of a workbook: blacklist, last-row decision, copy. raised is
   * true where the source raises (the rest of the workbook is then
   * abandoned); admitted where sheets_processed is incremented.
   */
  method ProcessSheet(acc: Accumulator, ghost step: NamedSheet -> SheetOutcome, policy: ExtentPolicy, proc: RangeSpec, sh: NamedSheet)
    returns (raised: bool, admitted: bool)
    requires StepIs(step, policy, proc)
    requires acc.Valid() && acc.Unmarked() && acc.width == AccWidth(proc) && acc.header.None?
    modifies acc
    ensures acc.Valid() && acc.Unmarked() && acc.header.None?
    ensures raised == step(sh).Raises? && admitted == step(sh).Admitted?
    ensures step(sh).Admitted? ==> acc.rows == old(acc.rows) + step(sh).rows
    ensures !step(sh).Admitted? ==> acc.rows == old(acc.rows)
  {
    assert step(sh) == SheetSpec(policy, proc, sh);
    if sh.name in Blacklist {
      return false, false;
    }
    var d := DecideLastRow(policy, proc, sh.ws);
    match d {
      case Raise =>
        return true, false;
      case Skip =>
        return false, false;
      case Admit(last) =>
        raised := CopyAdmitted(acc, proc, sh.ws, last, sh.name);
        admitted := !raised;
    }
  }

  /** Once a prefix of a workbook's sheets has raised, longer prefixes change nothing. */
  lemma {:induction false} SheetsSpecStaysFailed(step: NamedSheet -> SheetOutcome, s: seq<NamedSheet>, i: nat, j: nat)
    requires i <= j <= |s| && !SheetsSpec(step, s[..i]).ok
    ensures SheetsSpec(step, s[..j]) == SheetsSpec(step, s[..i])
    decreases j - i
  {
    if j > i {
      SheetsSpecStaysFailed(step, s, i, j - 1);
      assert s[..j][..j - 1] == s[..j - 1];
    }
  }

  lemma SheetsSpecStep(step: NamedSheet -> SheetOutcome, s: seq<NamedSheet>, i: nat)
    requires i < |s| && SheetsSpec(step, s[..i]).ok
    ensures step(s[i]).Raises? ==> SheetsSpec(step, s[..i + 1]) == SheetsSpec(step, s[..i]).(ok := false)
    ensures step(s[i]).Skipped? ==> SheetsSpec(step, s[..i + 1]) == SheetsSpec(step, s[..i])
    ensures step(s[i]).Admitted? ==>
      SheetsSpec(step, s[..i + 1]) == FileOutcome(SheetsSpec(step, s[..i]).rows + step(s[i]).rows, SheetsSpec(step, s[..i]).admitted + 1, true)
  {
    assert s[..i + 1][..i] == s[..i];
  }

  /**
   * The try block for one workbook: its sheets in order until one raises or
   * the workbook's own I/O error strikes. Rows appended before the failure
   * stay in the accumulator.
   */
  method ProcessWorkbook(acc: Accumulator, ghost step: NamedSheet -> SheetOutcome, policy: ExtentPolicy, proc: RangeSpec, f: WorkbookFile)
    returns (ok: bool, admitted: nat)
    requires StepIs(step, policy, proc)
    requires acc.Valid() && acc.Unmarked() && acc.width == AccWidth(proc) && acc.header.None?
    modifies acc
    ensures acc.Valid() && acc.Unmarked() && acc.header.None?
    ensures acc.rows == old(acc.rows) + FileSpec(step, f).rows
    ensures ok == FileSpec(step, f).ok && admitted == FileSpec(step, f).admitted
  {
    admitted := 0;
    var i := 0;
    while i < |f.sheets|
      invariant 0 <= i <= Readable(f)
      invariant acc.Valid() && acc.Unmarked() && acc.header.None? && acc.width == AccWidth(proc)
      invariant SheetsSpec(step, f.sheets[..i]).ok
      invariant acc.rows == old(acc.rows) + SheetsSpec(step, f.sheets[..i]).rows
      invariant admitted == SheetsSpec(step, f.sheets[..i]).admitted
    {
      if f.failAfter == Some(i) {
        break;
      }
      SheetsSpecStep(step, f.sheets, i);
      ghost var prev := SheetsSpec(step, f.sheets[..i]);
      var raised, adm := ProcessSheet(acc, step, policy, proc, f.sheets[i]);
      if raised {
        SheetsSpecStaysFailed(step, f.sheets, i + 1, Readable(f));
        return false, admitted;
      }
      if adm {
        assert acc.rows == old(acc.rows) + prev.rows + step(f.sheets[i]).rows;
        assert old(acc.rows) + prev.rows + step(f.sheets[i]).rows == old(acc.rows) + (prev.rows + step(f.sheets[i]).rows);
        admitted := admitted + 1;
      }
      i := i + 1;
    }
    ok := f.failAfter.None?;
  }

  /** The loop over the folder's entries: every .xlsx file that is not an Office lock file is merged in its own try block. */
  method MergeFolder(acc: Accumulator, ghost step: NamedSheet -> SheetOutcome, policy: ExtentPolicy, proc: RangeSpec, files: seq<WorkbookFile>)
    returns (filesProcessed: nat, sheetsProcessed: nat, failed: seq<string>)
    requires StepIs(step, policy, proc)
    requires acc.Valid() && acc.Unmarked() && acc.width == AccWidth(proc) && acc.header.None? && acc.rows == []
    modifies acc
    ensures acc.Valid() && acc.Unmarked() && acc.header.None?
    ensures acc.rows == FolderSpec(step, files).rows
    ensures filesProcessed == FolderSpec(step, files).filesProcessed
    ensures sheetsProcessed == FolderSpec(step, files).sheetsProcessed
    ensures failed == FolderSpec(step, files).failed
  {
    filesProcessed, sheetsProcessed := 0, 0;
    failed := [];
    for i := 0 to |files|
      invariant acc.Valid() && acc.Unmarked() && acc.header.None? && acc.width == AccWidth(proc)
      invariant acc.rows == FolderSpec(step, files[..i]).rows
      invariant filesProcessed == FolderSpec(step, files[..i]).filesProcessed
      invariant sheetsProcessed == FolderSpec(step, files[..i]).sheetsProcessed
      invariant failed == FolderSpec(step, files[..i]).failed
    {
      assert files[..i + 1][..i] == files[..i];
      var f := files[i];
      if IsWorkbookFile(f.fileName) {
        var ok, adm := ProcessWorkbook(acc, step, policy, proc, f);
        sheetsProcessed := sheetsProcessed + adm;
        if ok {
          filesProcessed := filesProcessed + 1;
        } else {
          failed := failed + [f.fileName];
        }
      }
    }
    assert files[..|files|] == files;
  }

  /** The concatenation passes of a normalisation (P with S, then I with S), over the data rows only. */
  method ConcatPasses(acc: Accumulator, norm: Normalisation)
    requires acc.Valid()
    modifies acc
    ensures acc.Valid() && acc.fills == old(acc.fills) && acc.header == old(acc.header)
    ensures Rectangular(old(acc.rows), acc.width)
    ensures acc.rows == Concatenated(old(acc.rows), norm, acc.width)
  {
    ghost var merged := acc.rows;
    assert Rectangular(merged, acc.width);
    if norm.concatP {
      acc.ConcatProvenance(PColumn);
      assert acc.rows == ConcatAll(merged, PColumn, acc.width);
    }
    ghost var r1 := acc.rows;
    if norm.concatI {
      acc.ConcatProvenance(IColumn);
      assert acc.rows == ConcatAll(r1, IColumn, acc.width);
    }
  }

  /** The passes after the folder loop, in the order the script runs them. */
  method Normalise(acc: Accumulator, norm: Normalisation)
    requires acc.Valid() && acc.Unmarked() && acc.header.None?
    requires norm.zeros.Some? ==> Blank(norm.zeros.value)
    modifies acc
    ensures Rectangular(old(acc.rows), acc.width)
    ensures acc.rows == NormalisedRows(old(acc.rows), norm, acc.width)
    ensures acc.fills == NormalisedFills(old(acc.rows), norm, acc.width)
    ensures acc.header == if norm.header.Some? then Some(HeaderRow(norm.header.value, if old(acc.rows) == [] then ProvenanceColumn else acc.width)) else None
  {
    ghost var merged := acc.rows;
    forall i | 0 <= i < |acc.fills|
      ensures acc.fills[i] == Unfilled(acc.width)
    {
      assert |acc.fills[i]| == acc.width;
    }
    assert acc.fills == seq(|merged|, _ => Unfilled(acc.width));
    ConcatPasses(acc, norm);
    ghost var c := acc.rows;
    if norm.header.Some? {
      acc.InsertHeader(norm.header.value);
      assert acc.header.value == HeaderRow(norm.header.value, if merged == [] then ProvenanceColumn else acc.width);
    }
    assert acc.rows == c && acc.fills == seq(|c|, _ => Unfilled(acc.width));
    if norm.zeros.Some? {
      ZeroPass(acc, norm.zeros.value);
    }
  }

  /** The zero pass over unmarked rows: every numeric 0 replaced and marked, as NormalisedRows/Fills describe. */
  method ZeroPass(acc: Accumulator, replacement: Cell)
    requires acc.Valid() && Blank(replacement)
    requires acc.fills == seq(|acc.rows|, _ => Unfilled(acc.width))
    modifies acc
    ensures acc.Valid() && acc.header == old(acc.header) && Rectangular(old(acc.rows), acc.width)
    ensures acc.rows == ZeroedRows(old(acc.rows), replacement)
    ensures acc.fills == ZeroMarks(old(acc.rows), acc.width)
  {
    ghost var c := acc.rows;
    acc.ClearZeros(replacement);
    assert acc.rows == ZeroedRows(c, replacement);
    assert acc.fills == ZeroMarks(c, acc.width);
  }

  /**
   * The body of process_excel_files once both ranges have been parsed: the
   * folder loop into a fresh workbook, then the script's normalisation
   * passes. The merged rows and the counters are those of FolderSpec, and
   * the saved sheet is those rows after the passes.
   */
  method MergeParsed(script: Script, task: string, files: seq<WorkbookFile>, policy: ExtentPolicy, proc: RangeSpec)
    returns (out: MergeOutput)
    ensures
      var t := FolderSpec(StepOf(policy, proc), files);
      var norm := NormalisationOf(script, task);
      var width := AccWidth(proc);
      Rectangular(t.rows, width) &&
      out.fileName == OutputName(script, task) &&
      out.rowsMerged == |t.rows| &&
      out.filesProcessed == t.filesProcessed &&
      out.sheetsProcessed == t.sheetsProcessed &&
      out.failed == t.failed &&
      out.rows == NormalisedRows(t.rows, norm, width) &&
      out.fills == NormalisedFills(t.rows, norm, width) &&
      out.header == (if norm.header.Some? then Some(HeaderRow(norm.header.value, if t.rows == [] then ProvenanceColumn else width)) else None)
  {
    ghost var step := StepOf(policy, proc);
    StepOfIs(policy, proc);
    var acc := new Accumulator(AccWidth(proc));
    var filesProcessed, sheetsProcessed, failed := MergeFolder(acc, step, policy, proc, files);
    ghost var t := FolderSpec(step, files);
    assert acc.rows == t.rows && acc.width == AccWidth(proc);
    var rowsMerged := |acc.rows|;
    var norm := NormalisationOf(script, task);
    Normalise(acc, norm);
    out := MergeOutput(OutputName(script, task), acc.header, acc.rows, acc.fills, filesProcessed, sheetsProcessed, rowsMerged, failed);
  }

  /**
   * process_excel_files for one script and task. A range that does not
   * parse raises before any file is opened (Err). Otherwise the merged
   * rows and the counters are those of FolderSpec, and the saved sheet is
   * those rows after the script's normalisation passes.
   */
  method ProcessExcelFiles(script: Script, task: string, files: seq<WorkbookFile>, processRange: string, criteriaRange: string)
    returns (r: Result<MergeOutput>)
    ensures r.Err? <==> ParseRange(processRange).Err? || PolicyFor(script, criteriaRange).Err?
    ensures r.Ok? ==>
      var proc := ParseRange(processRange).value;
      var t := FolderSpec(StepOf(PolicyFor(script, criteriaRange).value, proc), files);
      var norm := NormalisationOf(script, task);
      var width := AccWidth(proc);
      Rectangular(t.rows, width) &&
      r.value.fileName == OutputName(script, task) &&
      r.value.rowsMerged == |t.rows| &&
      r.value.filesProcessed == t.filesProcessed &&
      r.value.sheetsProcessed == t.sheetsProcessed &&
      r.value.failed == t.failed &&
      r.value.rows == NormalisedRows(t.rows, norm, width) &&
      r.value.fills == NormalisedFills(t.rows, norm, width) &&
      r.value.header == (if norm.header.Some? then Some(HeaderRow(norm.header.value, if t.rows == [] then ProvenanceColumn else width)) else None)
  {
    var parsed := ParseRange(processRange);
    if parsed.Err? {
      return Err(parsed.message);
    }
    var policy := PolicyFor(script, criteriaRange);
    if policy.Err? {
      return Err(policy.message);
    }
    var out := MergeParsed(script, task, files, policy.value, parsed.value);
    r := Ok(out);
  }
}
