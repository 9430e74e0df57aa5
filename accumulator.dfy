/**
 * The merge output sheet (merge_ws): the rows copied from every admitted
 * sheet, each tagged with its sheet name in column S, and the
 * normalisation passes run over it once the folder has been read.
 */
module Accumulation {
  import opened Results
  import opened Text
  import opened Cells
  import opened Sheets

  /** Column S, where every copied row records the sheet it came from (index 18). */
  const ProvenanceColumn: nat := 19

  /** Number of columns in the span c1..c2. */
  function SpanWidth(c1: int, c2: int): nat
  {
    if c1 <= c2 then c2 - c1 + 1 else 0
  }

  /** merge_ws.max_column once a row has been copied: the larger of the span's width and column S. */
  function RowWidth(c1: int, c2: int): (w: nat)
    ensures w >= ProvenanceColumn && w >= SpanWidth(c1, c2)
    ensures w == ProvenanceColumn || w == SpanWidth(c1, c2)
  {
    if SpanWidth(c1, c2) < ProvenanceColumn then ProvenanceColumn else SpanWidth(c1, c2)
  }

  /** The any(...) test of the copy loop: some cell of the row in c1..c2 is neither None nor "". */
  predicate HasData(ws: Sheet, row: int, c1: int, c2: int)
  {
    exists c :: c1 <= c <= c2 && CellAt(ws, row, c).Some? && !Blank(CellAt(ws, row, c).value)
  }

  /**
   * The accumulator row written for source row `row`: the span's values
   * left-aligned from column A, the sheet name in column S (overwriting the
   * span's own column S when the span is that wide), None elsewhere.
   */
  function TaggedRow(ws: Sheet, row: int, c1: int, c2: int, name: string): seq<Cell>
  {
    seq(RowWidth(c1, c2), j =>
      if j == ProvenanceColumn - 1 then Str(name)
      else if j < SpanWidth(c1, c2) then Get(ws, row, c1 + j)
      else Empty)
  }

  /** The source rows of first..last that hold data, in scan order. */
  function DataRows(ws: Sheet, c1: int, c2: int, first: int, last: int): seq<int>
    decreases last - first
  {
    if last < first then []
    else DataRows(ws, c1, c2, first, last - 1) + (if HasData(ws, row := last, c1 := c1, c2 := c2) then [last] else [])
  }

  /**
   * DataRows holds exactly the rows of first..last with data, strictly
   * increasing: a copied block has no blank rows and no gaps, and keeps
   * the sheet's order.
   */
  lemma {:induction false} DataRowsExact(ws: Sheet, c1: int, c2: int, first: int, last: int)
    ensures forall r :: r in DataRows(ws, c1, c2, first, last) <==> first <= r <= last && HasData(ws, r, c1, c2)
    ensures forall i, j :: 0 <= i < j < |DataRows(ws, c1, c2, first, last)| ==>
      DataRows(ws, c1, c2, first, last)[i] < DataRows(ws, c1, c2, first, last)[j]
    decreases last - first
  {
    if last >= first {
      DataRowsExact(ws, c1, c2, first, last - 1);
      var d0 := DataRows(ws, c1, c2, first, last - 1);
      assert forall i :: 0 <= i < |d0| ==> d0[i] in d0 && d0[i] < last;
    }
  }

  /** The rows one admitted sheet contributes to the accumulator, in order. */
  function CopiedRows(ws: Sheet, c1: int, c2: int, first: int, last: int, name: string): seq<seq<Cell>>
  {
    var d := DataRows(ws, c1, c2, first, last);
    seq(|d|, i requires 0 <= i < |d| => TaggedRow(ws, d[i], c1, c2, name))
  }

  lemma CopiedRowsStep(ws: Sheet, c1: int, c2: int, first: int, last: int, name: string)
    requires first <= last
    ensures CopiedRows(ws, c1, c2, first, last, name) ==
      CopiedRows(ws, c1, c2, first, last - 1, name) + (if HasData(ws, last, c1, c2) then [TaggedRow(ws, last, c1, c2, name)] else [])
  {
    var d0 := DataRows(ws, c1, c2, first, last - 1);
    var d := DataRows(ws, c1, c2, first, last);
    assert d[..|d0|] == d0;
  }

  /**
   * Every row a sheet contributes is a copy of one of its data rows in
   * first..last: the span's values in columns A onwards and the sheet's
   * name in column S.
   */
  lemma CopiedRowsProvenance(ws: Sheet, c1: int, c2: int, first: int, last: int, name: string)
    ensures |CopiedRows(ws, c1, c2, first, last, name)| <= if first <= last then last - first + 1 else 0
    ensures forall i :: 0 <= i < |CopiedRows(ws, c1, c2, first, last, name)| ==>
      var row := CopiedRows(ws, c1, c2, first, last, name)[i];
      |row| == RowWidth(c1, c2) && row[ProvenanceColumn - 1] == Str(name) &&
      exists r :: first <= r <= last && HasData(ws, r, c1, c2) && row == TaggedRow(ws, r, c1, c2, name)
  {
    var d := DataRows(ws, c1, c2, first, last);
    DataRowsExact(ws, c1, c2, first, last);
    DistinctInRange(d, first, last);
    forall i | 0 <= i < |d|
      ensures exists r :: first <= r <= last && HasData(ws, r, c1, c2) && CopiedRows(ws, c1, c2, first, last, name)[i] == TaggedRow(ws, r, c1, c2, name)
    {
      assert d[i] in d;
    }
  }

  /** A strictly increasing sequence of integers inside first..last has at most last - first + 1 elements. */
  lemma {:induction false} DistinctInRange(d: seq<int>, first: int, last: int)
    requires forall i, j :: 0 <= i < j < |d| ==> d[i] < d[j]
    requires forall r :: r in d ==> first <= r <= last
    ensures |d| <= if first <= last then last - first + 1 else 0
    decreases |d|
  {
    if d != [] {
      assert d[0] in d;
      var rest := d[1..];
      forall r | r in rest
        ensures first <= r <= last && d[0] < r
      {
        var k :| 0 <= k < |rest| && rest[k] == r;
        assert d[k + 1] == r && d[k + 1] in d;
      }
      DistinctInRange(rest, d[0] + 1, last);
    }
  }

  function Unfilled(width: nat): seq<bool>
  {
    seq(width, _ => false)
  }

  /** Python's `if p and s: p = f"{p}-{s}"` on one cell. */
  function ConcatCell(p: Cell, s: Cell): Cell
  {
    if Truthy(p) && Truthy(s) then Str(Render(p) + "-" + Render(s)) else p
  }

  /** The concatenation changes a cell exactly when both it and the sheet name are truthy, and then appends "-" and the name. */
  lemma ConcatCellChanges(p: Cell, s: Cell)
    ensures ConcatCell(p, s) != p <==> Truthy(p) && Truthy(s)
    ensures ConcatCell(p, s) != p ==> StartsWith(ConcatCell(p, s).s, Render(p)) && EndsWith(ConcatCell(p, s).s, "-" + Render(s))
  {
    if Truthy(p) && Truthy(s) {
      ConcatAffixes(Render(p), "-", Render(s));
      if p.Str? {
        assert |ConcatCell(p, s).s| > |p.s|;
      }
    }
  }

  /** One accumulator row after column `col` has been concatenated with column S. */
  function ConcatRow(row: seq<Cell>, col: nat): seq<Cell>
    requires 1 <= col <= |row| && |row| >= ProvenanceColumn
  {
    row[col - 1 := ConcatCell(row[col - 1], row[ProvenanceColumn - 1])]
  }

  /** How a header row labels column `col` (1-based). */
  datatype HeaderStyle =
    | Numbered          // "T1", "T2", ... (OLE-finalv3)
    | Constant(text: string)   // the same text everywhere, "t1" (OLE-finalv2)

  function HeaderLabel(style: HeaderStyle, col: nat): string
  {
    match style
    case Numbered => "T" + IntToString(col)
    case Constant(t) => t
  }

  /** Numbered headers label every column differently. */
  lemma NumberedLabelsDistinct(a: nat, b: nat)
    requires a != b
    ensures HeaderLabel(Numbered, a) != HeaderLabel(Numbered, b)
  {
    IntToStringRoundTrip(a);
    IntToStringRoundTrip(b);
    assert IntToString(a) == HeaderLabel(Numbered, a)[1..];
    assert IntToString(b) == HeaderLabel(Numbered, b)[1..];
  }

  /** The zero pass on one row: every numeric 0 becomes the replacement. */
  function ClearRow(row: seq<Cell>, replacement: Cell): (r: seq<Cell>)
  {
    seq(|row|, j requires 0 <= j < |row| => if IsZero(row[j]) then replacement else row[j])
  }

  /** The pink fill on one row: a cell is filled if it was, or if it held a numeric 0. */
  function MarkRow(row: seq<Cell>, fill: seq<bool>): seq<bool>
    requires |fill| == |row|
  {
    seq(|row|, j requires 0 <= j < |row| => fill[j] || IsZero(row[j]))
  }

  /**
   * After the zero pass no cell holds a numeric 0, every other cell is as it
   * was, and a second pass changes neither values nor fills: the pass is
   * idempotent.
   */
  lemma ClearRowIdempotent(row: seq<Cell>, fill: seq<bool>, replacement: Cell)
    requires |fill| == |row| && Blank(replacement)
    ensures forall j :: 0 <= j < |row| ==> !IsZero(ClearRow(row, replacement)[j])
    ensures forall j :: 0 <= j < |row| && !IsZero(row[j]) ==> ClearRow(row, replacement)[j] == row[j] && MarkRow(row, fill)[j] == fill[j]
    ensures forall j :: 0 <= j < |row| && IsZero(row[j]) ==> MarkRow(row, fill)[j]
    ensures ClearRow(ClearRow(row, replacement), replacement) == ClearRow(row, replacement)
    ensures MarkRow(ClearRow(row, replacement), MarkRow(row, fill)) == MarkRow(row, fill)
  {
  }

  /**
   * merge_ws. rows are the data rows written so far (rows_merged is |rows|),
   * fills the pink-fill flag of each of their cells, header the row the
   * header pass inserts above them. Every data row is width cells wide.
   */
  class Accumulator {
    var rows: seq<seq<Cell>>
    var fills: seq<seq<bool>>
    var header: Option<seq<Cell>>
    const width: nat

    ghost predicate Valid()
      reads this
    {
      width >= ProvenanceColumn && |fills| == |rows| &&
      forall i :: 0 <= i < |rows| ==> |rows[i]| == width && |fills[i]| == width
    }

    /** No cell carries the pink fill. */
    ghost predicate Unmarked()
      reads this
    {
      forall i, j :: 0 <= i < |fills| && 0 <= j < |fills[i]| ==> !fills[i][j]
    }

    /** The output sheet as saved: the header row, if any, above the data rows. */
    function Table(): seq<seq<Cell>>
      reads this
    {
      (if header.Some? then [header.value] else []) + rows
    }

    /** Workbook().active: an empty sheet. */
    constructor (width: nat)
      requires width >= ProvenanceColumn
      ensures Valid() && Unmarked()
      ensures this.width == width && rows == [] && fills == [] && header == None
    {
      this.width := width;
      rows := [];
      fills := [];
      header := None;
    }

    /** rows_merged += 1, then copy columns c1..c2 of `row` and the sheet name into the new last row. */
    method AppendRow(ws: Sheet, row: int, c1: int, c2: int, name: string)
      requires Valid() && Unmarked() && width == RowWidth(c1, c2)
      modifies this
      ensures Valid() && Unmarked()
      ensures rows == old(rows) + [TaggedRow(ws, row, c1, c2, name)]
      ensures |fills| == |rows| && header == old(header)
    {
      var cells := seq(width, _ => Empty);
      var col := c1;
      while col <= c2
        invariant c1 <= col && (col <= c2 + 1 || col == c1)
        invariant |cells| == width
        invariant forall j :: 0 <= j < width ==> cells[j] == if j < col - c1 then Get(ws, row, c1 + j) else Empty
      {
        cells := cells[col - c1 := Get(ws, row, col)];
        col := col + 1;
      }
      cells := cells[ProvenanceColumn - 1 := Str(name)];
      assert cells == TaggedRow(ws, row, c1, c2, name);
      rows := rows + [cells];
      fills := fills + [Unfilled(width)];
    }

    /**
     * The copy loop for one admitted sheet: every row of first..last with
     * data is appended, in order. A first row below 1 with a non-empty span
     * makes openpyxl raise; the caller checks that before calling.
     */
    method CopyRows(ws: Sheet, c1: int, c2: int, first: int, last: int, name: string)
      requires Valid() && Unmarked() && width == RowWidth(c1, c2)
      requires first >= 1 || c2 < c1
      modifies this
      ensures Valid() && Unmarked() && header == old(header)
      ensures rows == old(rows) + CopiedRows(ws, c1, c2, first, last, name)
    {
      var row := first;
      while row <= last
        invariant first <= row && (row <= last + 1 || row == first)
        invariant Valid() && Unmarked() && header == old(header)
        invariant rows == old(rows) + CopiedRows(ws, c1, c2, first, row - 1, name)
      {
        CopiedRowsStep(ws, c1, c2, first, row, name);
        if HasData(ws, row, c1, c2) {
          AppendRow(ws, row, c1, c2, name);
        }
        row := row + 1;
      }
    }

    /**
     * The concatenation pass for column `col` (P, or I for the Displine
     * task): on every row where both that column and column S are truthy,
     * the column becomes "<value>-<sheet name>"; nothing else changes.
     */
    method ConcatProvenance(col: nat)
      requires Valid() && 1 <= col <= width && col != ProvenanceColumn
      modifies this
      ensures Valid() && fills == old(fills) && header == old(header) && |rows| == |old(rows)|
      ensures forall i :: 0 <= i < |rows| ==> rows[i] == ConcatRow(old(rows)[i], col)
    {
      var i := 0;
      while i < |rows|
        invariant 0 <= i <= |rows| == |old(rows)|
        invariant Valid() && fills == old(fills) && header == old(header)
        invariant forall k :: 0 <= k < i ==> rows[k] == ConcatRow(old(rows)[k], col)
        invariant forall k :: i <= k < |rows| ==> rows[k] == old(rows)[k]
      {
        var p := rows[i][col - 1];
        var s := rows[i][ProvenanceColumn - 1];
        if Truthy(p) && Truthy(s) {
          rows := rows[i := rows[i][col - 1 := Str(Render(p) + "-" + Render(s))]];
        }
        i := i + 1;
      }
    }

    /**
     * insert_rows(1) and label row 1 across merge_ws.max_column: the data
     * rows move down by one, unchanged. With no data row the sheet is 19
     * columns wide (the concatenation pass has touched column S of row 1).
     */
    method InsertHeader(style: HeaderStyle)
      requires Valid() && header.None?
      modifies this
      ensures Valid() && rows == old(rows) && fills == old(fills) && header.Some?
      ensures |header.value| == if rows == [] then ProvenanceColumn else width
      ensures forall j :: 0 <= j < |header.value| ==> header.value[j] == Str(HeaderLabel(style, j + 1))
      ensures Table() == [header.value] + old(Table())
    {
      var n := if rows == [] then ProvenanceColumn else width;
      var h: seq<Cell> := [];
      for col := 1 to n + 1
        invariant |h| == col - 1
        invariant forall j :: 0 <= j < |h| ==> h[j] == Str(HeaderLabel(style, j + 1))
      {
        h := h + [Str(HeaderLabel(style, col))];
      }
      header := Some(h);
    }

    /**
     * The zero pass over every row below the header: each numeric 0 is
     * replaced by `replacement` (None in OLE-finalv3, "" in OLE-finalv2) and
     * given the pink fill; every other cell keeps its value and fill.
     */
    method ClearZeros(replacement: Cell)
      requires Valid() && Blank(replacement)
      modifies this
      ensures Valid() && header == old(header) && |rows| == |old(rows)|
      ensures forall i :: 0 <= i < |rows| ==> rows[i] == ClearRow(old(rows)[i], replacement)
      ensures forall i :: 0 <= i < |rows| ==> fills[i] == MarkRow(old(rows)[i], old(fills)[i])
    {
      var i := 0;
      while i < |rows|
        invariant 0 <= i <= |rows| == |old(rows)|
        invariant Valid() && header == old(header)
        invariant forall k :: 0 <= k < i ==> rows[k] == ClearRow(old(rows)[k], replacement)
        invariant forall k :: 0 <= k < i ==> fills[k] == MarkRow(old(rows)[k], old(fills)[k])
        invariant forall k :: i <= k < |rows| ==> rows[k] == old(rows)[k] && fills[k] == old(fills)[k]
      {
        var row := rows[i];
        var fill := fills[i];
        var j := 0;
        while j < width
          invariant 0 <= j <= width
          invariant |row| == |fill| == width
          invariant forall c :: 0 <= c < j ==> row[c] == ClearRow(rows[i], replacement)[c] && fill[c] == MarkRow(rows[i], fills[i])[c]
          invariant forall c :: j <= c < width ==> row[c] == rows[i][c] && fill[c] == fills[i][c]
        {
          if row[j] == Num(0) {
            row := row[j := replacement];
            fill := fill[j := true];
          }
          j := j + 1;
        }
        rows := rows[i := row];
        fills := fills[i := fill];
        i := i + 1;
      }
    }
  }
}
