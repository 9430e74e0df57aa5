/**
 * How far down a sheet the data of a merge task extends (the "last row"),
 * under the three policies the merge scripts use: a forward scan of the
 * criteria column, a backward scan of the process range for a fully
 * populated row, and the M4 marker gate.
 */
module Extent {
  import opened Results
  import opened Text
  import opened Cells
  import opened Columns
  import opened Sheets

  /** ws[f"{crit_start_col}{row}"].value: None where openpyxl raises on the address. */
  function CriterionCell(ws: Sheet, col: string, row: int): Option<Cell>
  {
    CellByAddress(ws, col + IntToString(row))
  }

  /** The criteria cell of a row can be read and is neither None nor "". */
  predicate HasCriterion(ws: Sheet, col: string, row: int)
  {
    CriterionCell(ws, col, row).Some? && !Blank(CriterionCell(ws, col, row).value)
  }

  /**
   * The forward policy over the criteria rows lo..hi: Raised when some
   * criteria address in the range cannot be read (the source raises on
   * it), otherwise Found(the last row with a non-blank criterion) or
   * Exhausted when every criteria cell is blank. Blank rows in between do
   * not end the scan.
   */
  function CriteriaExtent(ws: Sheet, col: string, lo: int, hi: int): ScanResult
    decreases hi - lo
  {
    if hi < lo then Exhausted
    else match CriterionCell(ws, col, hi)
      case None => Raised
      case Some(c) =>
        var below := CriteriaExtent(ws, col, lo, hi - 1);
        if below.Raised? then Raised
        else if !Blank(c) then Found(hi)
        else below
  }

  /**
   * CriteriaExtent raises exactly when some row of lo..hi has an unreadable
   * address; when it does not, Found(r) is the last row of lo..hi with a
   * criterion, and Exhausted means no row of lo..hi has one.
   */
  lemma {:induction false} CriteriaExtentSpec(ws: Sheet, col: string, lo: int, hi: int)
    ensures CriteriaExtent(ws, col, lo, hi).Raised? <==> exists row :: lo <= row <= hi && CriterionCell(ws, col, row).None?
    ensures CriteriaExtent(ws, col, lo, hi).Found? ==>
      var last := CriteriaExtent(ws, col, lo, hi).row;
      lo <= last <= hi && HasCriterion(ws, col, last) &&
      forall row :: last < row <= hi ==> !HasCriterion(ws, col, row)
    ensures CriteriaExtent(ws, col, lo, hi).Exhausted? ==> forall row :: lo <= row <= hi ==> !HasCriterion(ws, col, row)
    decreases hi - lo
  {
    if lo <= hi {
      CriteriaExtentSpec(ws, col, lo, hi - 1);
      var r := CriteriaExtent(ws, col, lo, hi);
      var below := CriteriaExtent(ws, col, lo, hi - 1);
      if CriterionCell(ws, col, hi).Some? && !below.Raised? {
        forall row | lo <= row <= hi
          ensures CriterionCell(ws, col, row).Some?
        {
          if row < hi {
          }
        }
        if r.Found? && r.row < hi {
          assert r == below;
          forall row | r.row < row <= hi
            ensures !HasCriterion(ws, col, row)
          {
            if row < hi {
            }
          }
        }
        if r.Exhausted? {
          assert r == below;
          forall row | lo <= row <= hi
            ensures !HasCriterion(ws, col, row)
          {
            if row < hi {
            }
          }
        }
      }
    }
  }

  /**
   * The criteria loop of process_excel_files (forward scan): last_row starts
   * at lo - 1 and becomes every row whose criteria cell is non-blank; ok is
   * false where reading an address raises.
   */
  method ForwardScan(ws: Sheet, col: string, lo: int, hi: int) returns (ok: bool, lastRow: int)
    ensures ok == !CriteriaExtent(ws, col, lo, hi).Raised?
    ensures ok ==> lastRow == match CriteriaExtent(ws, col, lo, hi) { case Found(r) => r case _ => lo - 1 }
  {
    lastRow := lo - 1;
    var row := lo;
    while row <= hi
      invariant lo <= row && (row <= hi + 1 || row == lo)
      invariant !CriteriaExtent(ws, col, lo, row - 1).Raised?
      invariant lastRow == match CriteriaExtent(ws, col, lo, row - 1) { case Found(r) => r case _ => lo - 1 }
    {
      var cell := CriterionCell(ws, col, row);
      if cell.None? {
        RaisedStaysRaised(ws, col, lo, row, hi);
        return false, lastRow;
      }
      if !Blank(cell.value) {
        lastRow := row;
      }
      row := row + 1;
    }
    ok := true;
  }

  /** Once an unreadable criteria row has been met, extending the range upwards keeps the scan Raised. */
  lemma {:induction false} RaisedStaysRaised(ws: Sheet, col: string, lo: int, mid: int, hi: int)
    requires lo <= mid <= hi && CriterionCell(ws, col, mid).None?
    ensures CriteriaExtent(ws, col, lo, hi).Raised?
    decreases hi - mid
  {
    if mid < hi {
      RaisedStaysRaised(ws, col, lo, mid, hi - 1);
      var below := CriteriaExtent(ws, col, lo, hi - 1);
      assert below.Raised?;
      assert CriteriaExtent(ws, col, lo, hi) == match CriterionCell(ws, col, hi) { case None => Raised case Some(_) => below };
    }
  }

  /** With a criteria column of one to three letters, row r's criteria cell is that column's cell in row r, and reading fails exactly for rows below 1. */
  lemma CriterionOfLetters(ws: Sheet, col: string, row: int)
    requires 1 <= |col| <= 3 && AllLetters(col)
    ensures CriterionCell(ws, col, row) == if row >= 1 then Some(Get(ws, row, LettersValue(col) as int)) else None
  {
    AddressOfLabel(col, row);
  }

  /** So the forward scan of such a column raises exactly when its range is non-empty and starts below row 1. */
  lemma CriteriaExtentOfLetters(ws: Sheet, col: string, lo: int, hi: int)
    requires 1 <= |col| <= 3 && AllLetters(col)
    ensures CriteriaExtent(ws, col, lo, hi).Raised? <==> lo <= hi && lo < 1
  {
    CriteriaExtentSpec(ws, col, lo, hi);
    if lo <= hi && lo < 1 {
      CriterionOfLetters(ws, col, lo);
    }
    if !(lo <= hi && lo < 1) {
      forall row | lo <= row <= hi
        ensures CriterionCell(ws, col, row).Some?
      {
        CriterionOfLetters(ws, col, row);
      }
    }
  }

  /** every cell of the row in columns c1..c2 is neither None nor "" (Python's all()). */
  predicate FullRow(ws: Sheet, row: int, c1: int, c2: int)
  {
    forall c :: c1 <= c <= c2 ==> CellAt(ws, row, c).Some? && !Blank(CellAt(ws, row, c).value)
  }

  datatype ScanResult = Found(row: int) | Exhausted | Raised

  /**
   * The backward policy (ole4.py), scanning rows row, row - 1, ..., lo:
   * the first fully populated row found, Exhausted when there is none, and
   * Raised when the scan reaches a row that ws.cell cannot read (a row
   * below 1 with a non-empty column span). c1 is a column index as
   * column_index_from_string returns it.
   */
  function ScanDown(ws: Sheet, c1: int, c2: int, lo: int, row: int): (r: ScanResult)
    requires c1 >= 1
    ensures r.Found? ==> lo <= r.row <= row && FullRow(ws, r.row, c1, c2)
    ensures r.Found? ==> forall x :: r.row < x <= row ==> !FullRow(ws, x, c1, c2)
    ensures r.Exhausted? ==> forall x :: lo <= x <= row ==> !FullRow(ws, x, c1, c2)
    ensures r.Raised? <==> lo <= row && c1 <= c2 && lo < 1 && forall x :: 1 <= x <= row ==> !FullRow(ws, x, c1, c2)
    decreases row - lo
  {
    if row < lo then Exhausted
    else
      RowReadableExactly(ws, row, c1, c2);
      if !RowReadable(ws, row, c1, c2) then Raised
      else if FullRow(ws, row, c1, c2) then Found(row)
      else ScanDown(ws, c1, c2, lo, row - 1)
  }

  /**
   * The last-row loop of ole4.py: last_row starts at hi and is replaced by
   * the first fully populated row met scanning upwards (then break). ok is
   * false where the source raises. A range with lo <= hi always yields a
   * last row of at least lo, so such a sheet is always admitted.
   */
  method BackwardScan(ws: Sheet, c1: int, c2: int, lo: int, hi: int) returns (ok: bool, lastRow: int)
    requires c1 >= 1
    ensures ok == !ScanDown(ws, c1, c2, lo, hi).Raised?
    ensures ok ==> lastRow == match ScanDown(ws, c1, c2, lo, hi) { case Found(r) => r case _ => hi }
    ensures ok ==> (lastRow >= lo <==> lo <= hi)
    ensures ok && lastRow != hi ==> FullRow(ws, lastRow, c1, c2) && forall x :: lastRow < x <= hi ==> !FullRow(ws, x, c1, c2)
  {
    lastRow := hi;
    ok := true;
    var row := hi;
    while row >= lo
      invariant row <= hi
      invariant ScanDown(ws, c1, c2, lo, row) == ScanDown(ws, c1, c2, lo, hi)
      decreases row - lo
    {
      RowReadableExactly(ws, row, c1, c2);
      if c1 <= c2 && row < 1 {
        ok := false;
        return;
      }
      if FullRow(ws, row, c1, c2) {
        lastRow := row;
        break;
      }
      row := row - 1;
    }
  }

  /** The glyph ole2425.py expects in cell M4 of a sheet that is ready to merge. */
  const CheckMark: string := "\U{2714}"

  /** ws['M4'].value == "✔" (M is column 13). */
  predicate MarkerSet(ws: Sheet)
  {
    Get(ws, 4, 13) == Str(CheckMark)
  }
}
