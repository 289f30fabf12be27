/** The filter step of the executor: each clause narrows the current rows
    to those whose cell in the clause's column compares true against the
    clause's value. Clauses apply in order; an operator the executor does
    not know leaves the rows as they are. */
module Filtering {
  import opened Wrappers
  import opened Frames
  import opened Plans
  import opened Faults

  const KnownOperators: seq<string> := ["==", "!=", ">", "<", ">=", "<=", "in"]

  /** `filter_item.get('operator', '==')`. */
  function OperatorOf(clause: Clause): string {
    clause.operator.GetOr("==")
  }

  predicate IsOrdering(op: string) {
    op == ">" || op == "<" || op == ">=" || op == "<="
  }

  /** `cell op literal` as pandas evaluates it row by row, for the cases
      that raise nothing: a comparison with `None` is false for `==` and
      true for `!=`; `in` is membership in the listed values. */
  function Holds(op: string, cell: Value, lit: Literal): bool {
    match lit
    case Single(v) =>
      if op == "==" then cell == v
      else if op == "!=" then cell != v
      else if op == ">" then Less(v, cell)
      else if op == "<" then Less(cell, v)
      else if op == ">=" then cell == v || Less(v, cell)
      else if op == "<=" then cell == v || Less(cell, v)
      else false
    case Many(vs) => op == "in" && cell in vs
    case NoValue => op == "!="
  }

  /** The type name Python reports for a clause value. */
  function LiteralTypeName(lit: Literal): string {
    match lit
    case Single(v) => TypeName(v)
    case Many(_) => "list"
    case NoValue => "NoneType"
  }

  /** Comparing this cell with the clause value raises nothing: the value
      is missing (pandas answers a comparison with `None` without comparing),
      or it is a single value of the cell's kind. */
  predicate Orderable(cell: Value, lit: Literal) {
    lit.NoValue? || (lit.Single? && SameKind(cell, lit.v))
  }

  /** The `TypeError` an ordering comparison raises at the first row whose
      cell cannot be ordered against the value. */
  function OrderFault(rows: seq<Row>, column: string, op: string, lit: Literal): (r: Option<Fault>)
    requires HasColumn(rows, column)
    ensures r.None? <==> forall x :: x in rows ==> Orderable(x[column], lit)
  {
    if rows == [] then None
    else if !Orderable(rows[0][column], lit) then
      Some(Unorderable(op, TypeName(rows[0][column]), LiteralTypeName(lit)))
    else
      assert forall x :: x in rows[1..] ==> x in rows;
      OrderFault(rows[1..], column, op, lit)
  }

  /** What applying one clause to these rows raises, if anything: a missing
      or unknown column (`KeyError`), `isin` given a scalar, a comparison
      with a list, or an ordering between an int and a str. An unknown
      operator touches nothing and so raises nothing. */
  function ClauseFault(columns: seq<string>, rows: seq<Row>, clause: Clause): (f: Option<Fault>)
    requires Rectangular(columns, rows)
    ensures OperatorOf(clause) !in KnownOperators ==> f.None?
    ensures f.None? && OperatorOf(clause) in KnownOperators ==>
      clause.column.Some? && clause.column.value in columns
  {
    var op := OperatorOf(clause);
    if op !in KnownOperators then None
    else if clause.column.None? then Some(KeyMissing(None))
    else if clause.column.value !in columns then Some(KeyMissing(clause.column))
    else if op == "in" then
      if clause.value.Many? then None else Some(NotListLike(LiteralTypeName(clause.value)))
    else if clause.value.Many? then Some(ListComparison)
    else if IsOrdering(op) then OrderFault(rows, clause.column.value, op, clause.value)
    else None
  }

  /** The rows whose cell in `column` satisfies `op` against `lit`. */
  function FilterRows(rows: seq<Row>, column: string, op: string, lit: Literal): (r: seq<Row>)
    requires HasColumn(rows, column)
    ensures |r| <= |rows|
    ensures forall x :: x in r <==> x in rows && Holds(op, x[column], lit)
  {
    if rows == [] then []
    else
      assert forall x :: x in rows[1..] ==> x in rows;
      var rest := FilterRows(rows[1..], column, op, lit);
      assert rows == [rows[0]] + rows[1..];
      if Holds(op, rows[0][column], lit) then [rows[0]] + rest else rest
  }

  /** One step of `FilterRows`: the first row, if it passes, then the rest. */
  lemma FilterRowsCons(rows: seq<Row>, column: string, op: string, lit: Literal)
    requires HasColumn(rows, column) && rows != []
    ensures HasColumn(rows[1..], column)
    ensures FilterRows(rows, column, op, lit) ==
            (if Holds(op, rows[0][column], lit) then [rows[0]] else []) + FilterRows(rows[1..], column, op, lit)
  {
    assert forall x :: x in rows[1..] ==> x in rows;
  }

  /** How many copies of one row filtering keeps: all of them if the row
      passes, none otherwise. */
  lemma {:induction false} FilterRowsCountAt(rows: seq<Row>, column: string, op: string, lit: Literal, x: Row)
    requires HasColumn(rows, column)
    ensures multiset(FilterRows(rows, column, op, lit))[x] ==
            if x in rows && Holds(op, x[column], lit) then multiset(rows)[x] else 0
  {
    if rows != [] {
      FilterRowsCons(rows, column, op, lit);
      FilterRowsCountAt(rows[1..], column, op, lit, x);
      assert x in rows[1..] ==> x in rows;
      var pass := x in rows && Holds(op, x[column], lit);
      CountCons(FilterRows(rows, column, op, lit), FilterRows(rows[1..], column, op, lit), rows, x,
                Holds(op, rows[0][column], lit), pass);
    }
  }

  /** One step of counting the copies of `x` a filter keeps, for any filter:
      the head is kept or not, then the rest is filtered. */
  lemma CountCons<T>(kept: seq<T>, restKept: seq<T>, s: seq<T>, x: T, headKept: bool, pass: bool)
    requires s != []
    requires kept == (if headKept then [s[0]] else []) + restKept
    requires multiset(restKept)[x] == if x in s[1..] && pass then multiset(s[1..])[x] else 0
    requires x == s[0] ==> headKept == pass
    ensures multiset(kept)[x] == if x in s && pass then multiset(s)[x] else 0
  {
    assert s == [s[0]] + s[1..];
    assert multiset(s) == multiset{s[0]} + multiset(s[1..]);
    if x != s[0] {
      assert x in s <==> x in s[1..];
    }
  }

  /** Filtering keeps every copy of a passing row, and nothing else. */
  lemma FilterRowsCounts(rows: seq<Row>, column: string, op: string, lit: Literal)
    requires HasColumn(rows, column)
    ensures forall x :: multiset(FilterRows(rows, column, op, lit))[x] ==
                          if x in rows && Holds(op, x[column], lit) then multiset(rows)[x] else 0
  {
    forall x ensures multiset(FilterRows(rows, column, op, lit))[x] ==
                     if x in rows && Holds(op, x[column], lit) then multiset(rows)[x] else 0 {
      FilterRowsCountAt(rows, column, op, lit, x);
    }
  }

  /** For a single or a missing value, a cell satisfies `!=` exactly when
      it does not satisfy `==`. */
  lemma NotEqualNegatesEqual(cell: Value, lit: Literal)
    requires !lit.Many?
    ensures Holds("!=", cell, lit) == !Holds("==", cell, lit)
  {
  }

  /** `!=` keeps exactly the rows `==` drops, for a single or a missing
      value: the two filters split the rows between them. */
  lemma NotEqualComplementsEqual(rows: seq<Row>, column: string, lit: Literal)
    requires HasColumn(rows, column) && !lit.Many?
    ensures multiset(FilterRows(rows, column, "==", lit)) + multiset(FilterRows(rows, column, "!=", lit))
            == multiset(rows)
  {
    var eq := multiset(FilterRows(rows, column, "==", lit));
    var ne := multiset(FilterRows(rows, column, "!=", lit));
    FilterRowsCounts(rows, column, "==", lit);
    FilterRowsCounts(rows, column, "!=", lit);
    forall x ensures (eq + ne)[x] == multiset(rows)[x] {
      if x in rows {
        NotEqualNegatesEqual(x[column], lit);
      }
    }
  }

  /** One clause, as one pass of the executor's filter loop. */
  function ApplyClause(columns: seq<string>, rows: seq<Row>, clause: Clause): (r: Result<seq<Row>, Fault>)
    requires Rectangular(columns, rows)
    ensures r.Ok? ==> forall x :: x in r.value ==> x in rows
    ensures r.Ok? ==> Rectangular(columns, r.value)
  {
    var fault := ClauseFault(columns, rows, clause);
    if fault.Some? then Err(fault.value)
    else
      var op := OperatorOf(clause);
      if op !in KnownOperators then Ok(rows)
      else Ok(FilterRows(rows, clause.column.value, op, clause.value))
  }

  /** All clauses in order: the first fault stops the loop. */
  function ApplyFilters(columns: seq<string>, rows: seq<Row>, clauses: seq<Clause>): (r: Result<seq<Row>, Fault>)
    requires Rectangular(columns, rows)
    ensures r.Ok? ==> Rectangular(columns, r.value)
    decreases |clauses|
  {
    if clauses == [] then Ok(rows)
    else
      match ApplyClause(columns, rows, clauses[0])
      case Err(f) => Err(f)
      case Ok(next) => ApplyFilters(columns, next, clauses[1..])
  }

  /** A row passes a clause: the operator is unknown, or the row's cell in
      the clause's column satisfies it. */
  predicate Passes(clause: Clause, x: Row) {
    var op := OperatorOf(clause);
    op !in KnownOperators
    || (clause.column.Some? && clause.column.value in x && Holds(op, x[clause.column.value], clause.value))
  }

  /** `a` is `b` with some elements left out, the rest in their order. */
  ghost predicate Subseq<T>(a: seq<T>, b: seq<T>) {
    a == [] || (b != [] && ((a[0] == b[0] && Subseq(a[1..], b[1..])) || Subseq(a, b[1..])))
  }

  lemma {:induction false} SubseqReflexive<T>(s: seq<T>)
    ensures Subseq(s, s)
  {
    if s != [] { SubseqReflexive(s[1..]); }
  }

  lemma {:induction false} SubseqTransitive<T>(a: seq<T>, b: seq<T>, c: seq<T>)
    requires Subseq(a, b) && Subseq(b, c)
    ensures Subseq(a, c)
    decreases |c|
  {
    if a != [] {
      assert b != [] && c != [];
      if Subseq(b, c[1..]) {
        SubseqTransitive(a, b, c[1..]);
      } else {
        assert b[0] == c[0] && Subseq(b[1..], c[1..]);
        if a[0] == b[0] && Subseq(a[1..], b[1..]) {
          SubseqTransitive(a[1..], b[1..], c[1..]);
        } else {
          SubseqTransitive(a, b[1..], c[1..]);
        }
      }
    }
  }

  /** Filtering keeps the surviving rows in their original order. */
  lemma {:induction false} FilterRowsInOrder(rows: seq<Row>, column: string, op: string, lit: Literal)
    requires HasColumn(rows, column)
    ensures Subseq(FilterRows(rows, column, op, lit), rows)
  {
    if rows != [] {
      assert forall x :: x in rows[1..] ==> x in rows;
      FilterRowsInOrder(rows[1..], column, op, lit);
    }
  }

  /** One clause that raises nothing keeps exactly the rows that pass it,
      every copy of each, in their original order. */
  lemma ApplyClauseKeepsPassingRows(columns: seq<string>, rows: seq<Row>, clause: Clause)
    requires Rectangular(columns, rows)
    requires ApplyClause(columns, rows, clause).Ok?
    ensures Subseq(ApplyClause(columns, rows, clause).value, rows)
    ensures forall x :: x in ApplyClause(columns, rows, clause).value <==> x in rows && Passes(clause, x)
    ensures forall x :: multiset(ApplyClause(columns, rows, clause).value)[x] ==
                          if x in rows && Passes(clause, x) then multiset(rows)[x] else 0
  {
    var op := OperatorOf(clause);
    if op !in KnownOperators {
      SubseqReflexive(rows);
    } else {
      FilterRowsInOrder(rows, clause.column.value, op, clause.value);
      FilterRowsCounts(rows, clause.column.value, op, clause.value);
    }
  }

  /** The filter loop, when it raises nothing, yields exactly the rows that
      pass every clause, every copy of each, as an order-preserving
      subsequence of the table. */
  lemma {:induction false} FiltersKeepPassingRows(columns: seq<string>, rows: seq<Row>, clauses: seq<Clause>)
    requires Rectangular(columns, rows)
    requires ApplyFilters(columns, rows, clauses).Ok?
    ensures Subseq(ApplyFilters(columns, rows, clauses).value, rows)
    ensures forall x :: x in ApplyFilters(columns, rows, clauses).value <==>
                          x in rows && forall c :: c in clauses ==> Passes(c, x)
    ensures forall x :: multiset(ApplyFilters(columns, rows, clauses).value)[x] ==
                          if x in rows && forall c :: c in clauses ==> Passes(c, x) then multiset(rows)[x] else 0
    decreases |clauses|
  {
    if clauses == [] {
      SubseqReflexive(rows);
    } else {
      var next := ApplyClause(columns, rows, clauses[0]).value;
      ApplyClauseKeepsPassingRows(columns, rows, clauses[0]);
      FiltersKeepPassingRows(columns, next, clauses[1..]);
      SubseqTransitive(ApplyFilters(columns, rows, clauses).value, next, rows);
      assert forall c :: c in clauses <==> c == clauses[0] || c in clauses[1..] by {
        assert clauses == [clauses[0]] + clauses[1..];
      }
    }
  }

  /** An operator outside the known seven leaves the rows unchanged, even
      when the clause names no column. */
  lemma UnknownOperatorIgnored(columns: seq<string>, rows: seq<Row>, clause: Clause)
    requires Rectangular(columns, rows)
    requires OperatorOf(clause) !in KnownOperators
    ensures ApplyClause(columns, rows, clause) == Ok(rows)
  {
  }

  /** A clause without `operator` behaves as one with `==`. */
  lemma MissingOperatorMeansEquality(columns: seq<string>, rows: seq<Row>, clause: Clause)
    requires Rectangular(columns, rows)
    requires clause.operator.None?
    ensures ApplyClause(columns, rows, clause) == ApplyClause(columns, rows, clause.(operator := Some("==")))
  {
  }

  /** `==` on an existing column never raises, and keeps exactly the rows
      whose cell equals the literal, every copy of each. */
  lemma EqualityFilter(columns: seq<string>, rows: seq<Row>, column: string, v: Value)
    requires Rectangular(columns, rows)
    requires column in columns
    ensures var r := ApplyClause(columns, rows, Clause(Some(column), Some("=="), Single(v)));
            && r.Ok?
            && (forall x :: x in r.value <==> x in rows && x[column] == v)
            && (forall x :: multiset(r.value)[x] == if x in rows && x[column] == v then multiset(rows)[x] else 0)
  {
    FilterRowsCounts(rows, column, "==", Single(v));
  }

  /** A filter that every row passes returns the rows unchanged. */
  lemma {:induction false} FilterRowsKeepsAll(rows: seq<Row>, column: string, op: string, lit: Literal)
    requires HasColumn(rows, column)
    requires forall x :: x in rows ==> Holds(op, x[column], lit)
    ensures FilterRows(rows, column, op, lit) == rows
  {
    if rows != [] {
      assert forall x :: x in rows[1..] ==> x in rows;
      FilterRowsKeepsAll(rows[1..], column, op, lit);
      assert Holds(op, rows[0][column], lit);
      assert rows == [rows[0]] + rows[1..];
    }
  }

  /** A clause without `value` compares each cell with `None`, which raises
      nothing: `!=` keeps every row, and every other known operator but
      `in` keeps none. */
  lemma MissingValueComparesFalse(columns: seq<string>, rows: seq<Row>, column: string, op: string)
    requires Rectangular(columns, rows) && column in columns
    requires op in KnownOperators && op != "in"
    ensures ApplyClause(columns, rows, Clause(Some(column), Some(op), NoValue)) ==
              Ok(if op == "!=" then rows else [])
  {
    var clause := Clause(Some(column), Some(op), NoValue);
    assert ClauseFault(columns, rows, clause).None?;
    var r := FilterRows(rows, column, op, NoValue);
    if op == "!=" {
      FilterRowsKeepsAll(rows, column, op, NoValue);
    } else {
      FilterRowsCounts(rows, column, op, NoValue);
      assert multiset(r) == multiset{};
    }
  }
}
