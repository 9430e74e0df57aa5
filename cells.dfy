/**
 * Cell values as the scripts see them through openpyxl: None, a string or a
 * number (integers only in this model), with the three tests the scripts
 * apply to them.
 */
module Cells {
  import opened Text

  datatype Cell = Empty | Str(s: string) | Num(n: int)

  /** `value in (None, "")`: the scripts' notion of a blank cell. */
  predicate Blank(c: Cell) { c == Empty || c == Str("") }

  /** Python truthiness of a cell value: a non-empty string or a non-zero number. */
  predicate Truthy(c: Cell)
  {
    match c
    case Empty => false
    case Str(s) => s != ""
    case Num(n) => n != 0
  }

  /** `value == 0`: true for a numeric zero, false for the string "0". */
  predicate IsZero(c: Cell) { c == Num(0) }

  /** Python's str() of a non-None cell value, as an f-string renders it. */
  function Render(c: Cell): string
  {
    match c
    case Empty => "None"
    case Str(s) => s
    case Num(n) => IntToString(n)
  }

  /** A truthy cell is never blank, and a zero is never truthy. */
  lemma TruthyNotBlank(c: Cell)
    ensures Truthy(c) ==> !Blank(c)
    ensures IsZero(c) ==> !Truthy(c) && !Blank(c)
  {
  }
}
