/** The values the pipeline moves around: a cell of a table as pandas hands it
    over, a table (column labels and positional rows) and a row turned into a
    Python dictionary. */
module Frames {
  import opened Text

  /** One cell. `Missing` is pandas' NaN for a blank cell: a float, so it is
      truthy and not a string; `Null` is Python's `None`. */
  datatype Cell = Str(s: string) | Int(n: int) | Null | Missing

  /** Python's truth value of a cell. */
  predicate Truthy(c: Cell) {
    match c
    case Str(s) => s != []
    case Int(n) => n != 0
    case Null => false
    case Missing => true
  }

  /** What pandas' `isna` counts as missing. */
  predicate IsNA(c: Cell) {
    c.Null? || c.Missing?
  }

  /** Python's `str()` of a cell. */
  function PyStr(c: Cell): string {
    match c
    case Str(s) => s
    case Int(n) => IntToString(n)
    case Null => "None"
    case Missing => "nan"
  }

  /** A row as a Python dictionary from column label to cell. */
  type Row = map<string, Cell>

  /** `dict.get(k)`: the cell under `k`, or `None` when the key is absent. */
  function Get(r: Row, k: string): (c: Cell)
    ensures k !in r ==> c == Null
    ensures k in r ==> c == r[k]
  {
    if k in r then r[k] else Null
  }

  /** A table: column labels and rows of cells, one cell per column. */
  datatype Table = Table(columns: seq<string>, rows: seq<seq<Cell>>)

  predicate WellFormed(t: Table) {
    forall i | 0 <= i < |t.rows| :: |t.rows[i]| == |t.columns|
  }

  /** `i` is the last position of the label `cols[i]`. */
  predicate LastAt(cols: seq<string>, i: int) {
    0 <= i < |cols| && forall j | i < j < |cols| :: cols[j] != cols[i]
  }

  /** The position of the last column labelled `k`. */
  function LastIndex(cols: seq<string>, k: string): (i: nat)
    requires k in cols
    ensures LastAt(cols, i) && cols[i] == k
  {
    if cols[|cols| - 1] == k then |cols| - 1 else LastIndex(cols[..|cols| - 1], k)
  }

  /** pandas' `row.to_dict()`: labels to cells, in column order, a later
      column overriding an earlier one with the same label. */
  function ToDict(cols: seq<string>, cells: seq<Cell>): (r: Row)
    requires |cols| == |cells|
    ensures forall k :: k in r <==> k in cols
    ensures forall i | LastAt(cols, i) :: r[cols[i]] == cells[i]
  {
    map k | k in cols :: cells[LastIndex(cols, k)]
  }
}
