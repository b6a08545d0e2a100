/**
 * The values a Google Sheets cell hands to Apps Script (`getValues`), and the
 * JavaScript coercions the scripts apply to them: truthiness, `String(cell)`,
 * `parseInt(cell) || 1` and `cell || ''`. An empty cell reads as the empty string.
 */
module Cells {
  import opened Wrappers
  import opened Text

  datatype Cell = Str(s: string) | Num(n: int) | Bool(b: bool)

  type Row = seq<Cell>

  const Empty := Str("")

  /** The cell of `row` in column `col`; a short row reads as empty cells. */
  function At(row: Row, col: nat): Cell {
    if col < |row| then row[col] else Empty
  }

  /** JavaScript truthiness of a cell value. */
  predicate Truthy(c: Cell) {
    match c
    case Str(s) => s != ""
    case Num(n) => n != 0
    case Bool(b) => b
  }

  /** `String(cell)` */
  function CellText(c: Cell): (r: string)
    ensures c.Str? ==> r == c.s
    ensures c.Bool? ==> r == if c.b then "true" else "false"
  {
    match c
    case Str(s) => s
    case Num(n) => IntToString(n)
    case Bool(b) => if b then "true" else "false"
  }

  /** `parseInt(String(n))` is `n`. */
  lemma ParseCellNumber(n: int)
    ensures ParseInt(CellText(Num(n))) == Some(n)
  {
    ParseIntOfIntToString(n);
  }

  /** `parseInt(cell) || 1`: a positive, negative or absent number read from the cell, never zero. */
  function CellCount(c: Cell): (r: int)
    ensures r != 0
    ensures c.Num? && c.n != 0 ==> r == c.n
    ensures !Truthy(c) ==> r == 1
  {
    if c.Num? then
      ParseCellNumber(c.n);
      CountOf(CellText(c))
    else
      ParseIntOfWord(CellText(c));
      CountOf(CellText(c))
  }

  /** `cell || ''`: a falsy cell reads as the empty string, any other as itself. */
  function OrEmpty(c: Cell): (r: Cell)
    ensures Truthy(r) == Truthy(c)
  {
    if Truthy(c) then c else Empty
  }

  /** `String(cell || '')`: the text of a truthy cell, and the empty string otherwise. */
  function TextOrEmpty(c: Cell): (r: string)
    ensures c.Str? ==> r == c.s
    ensures !Truthy(c) ==> r == ""
  {
    if Truthy(c) then CellText(c) else ""
  }

  /** `cell === true || cell === 'TRUE'`: how the scripts read a check box. */
  predicate IsChecked(c: Cell) {
    c == Bool(true) || c == Str("TRUE")
  }

  /** The cells of a row, each as `String(cell)`. */
  function RowText(row: Row): (r: seq<string>)
    ensures |r| == |row|
    ensures forall i :: 0 <= i < |row| ==> r[i] == CellText(row[i])
  {
    seq(|row|, i requires 0 <= i < |row| => CellText(row[i]))
  }
}
