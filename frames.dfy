/** The tabular data the executor works on: a table is a list of column
    names and a list of rows, each row mapping column names to cells.
    Cells are Python ints or strings (no missing values). */
module Frames {

  datatype Value = IntVal(i: int) | StrVal(s: string)

  type Row = map<string, Value>

  datatype Table = Table(columns: seq<string>, rows: seq<Row>)

  /** Every row has a cell for column `c`. */
  ghost predicate HasColumn(rows: seq<Row>, c: string) {
    forall r :: r in rows ==> c in r
  }

  /** A data frame is rectangular: every listed column has a cell in every row. */
  ghost predicate Rectangular(columns: seq<string>, rows: seq<Row>) {
    forall c :: c in columns ==> HasColumn(rows, c)
  }

  ghost predicate WellFormed(t: Table) {
    Rectangular(t.columns, t.rows)
  }

  /** Both cells are ints, or both are strings: Python can order them. */
  predicate SameKind(a: Value, b: Value) {
    a.IntVal? == b.IntVal?
  }

  /** Python's `<` on two strings: lexicographic by code point, a proper
      prefix being smaller. */
  function StrLess(a: string, b: string): (r: bool)
    ensures r ==> a != b
  {
    if |a| == 0 then |b| > 0
    else if |b| == 0 then false
    else if a[0] != b[0] then a[0] < b[0]
    else StrLess(a[1..], b[1..])
  }

  /** Python's `<` on two cells of the same kind. Cells of different kinds
      cannot be ordered (Python raises); this function answers false for
      them and callers check `SameKind` first. */
  function Less(a: Value, b: Value): (r: bool)
    ensures r ==> SameKind(a, b) && a != b
  {
    match (a, b)
    case (IntVal(x), IntVal(y)) => x < y
    case (StrVal(x), StrVal(y)) => StrLess(x, y)
    case _ => false
  }

  /** Python's `type(v).__name__`, used in error texts. */
  function TypeName(v: Value): string {
    if v.IntVal? then "int" else "str"
  }
}
