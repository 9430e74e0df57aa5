/**
 * The input side of the merge: worksheets as grids of cells, the workbooks
 * of the target folder, and the two filters the scripts apply to them
 * (file names and infrastructure sheet names).
 */
module Sheets {
  import opened Results
  import opened Text
  import opened Cells
  import opened Columns

  /** A worksheet, read with data_only=True: (row, column) to value; a coordinate not in the map holds None. */
  type Sheet = map<(int, int), Cell>

  function Get(ws: Sheet, row: int, col: int): Cell
  {
    if (row, col) in ws then ws[(row, col)] else Empty
  }

  /** ws.cell(row=, column=).value: None (openpyxl raises) when the row or the column is below 1. */
  function CellAt(ws: Sheet, row: int, col: int): (r: Option<Cell>)
    ensures r.Some? <==> row >= 1 && col >= 1
    ensures r.Some? ==> r.value == Get(ws, row, col)
  {
    if row >= 1 && col >= 1 then Some(Get(ws, row, col)) else None
  }

  /** Every cell of `row` in columns c1..c2 can be read with ws.cell (vacuously so for an empty span). */
  predicate RowReadable(ws: Sheet, row: int, c1: int, c2: int)
  {
    forall c :: c1 <= c <= c2 ==> CellAt(ws, row, c).Some?
  }

  /**
   * With columns as column_index_from_string returns them (never below 1),
   * reading a row of a non-empty span raises exactly when the row is below 1.
   */
  lemma RowReadableExactly(ws: Sheet, row: int, c1: int, c2: int)
    requires c1 >= 1
    ensures RowReadable(ws, row, c1, c2) <==> !(c1 <= c2 && row < 1)
  {
    if c1 <= c2 && row < 1 {
      assert CellAt(ws, row, c1).None?;
    }
  }

  /** ws["CV26"].value: None (openpyxl raises) when the address does not parse. */
  function CellByAddress(ws: Sheet, address: string): Option<Cell>
  {
    match ParseCoordinate(address)
    case None => None
    case Some(rc) => Some(Get(ws, rc.0, rc.1))
  }

  /** The sheet names every merge script refuses to read. */
  const Blacklist: set<string> := {"index", "list", "setting", "TEMPLATE", "STUDENTINFO"}

  /** filename.endswith('.xlsx') and not filename.startswith('~$'). */
  predicate IsWorkbookFile(name: string)
  {
    EndsWith(name, ".xlsx") && !StartsWith(name, "~$")
  }

  datatype NamedSheet = NamedSheet(name: string, ws: Sheet)

  /**
   * One file of the target folder as os.listdir gives it. failAfter = Some(k)
   * means that reading the workbook raises after its first k sheets have been
   * handled (Some(0): load_workbook itself raises, the file is corrupt or
   * locked); None means the file reads without an I/O error.
   */
  datatype WorkbookFile = WorkbookFile(fileName: string, sheets: seq<NamedSheet>, failAfter: Option<nat>)
}
