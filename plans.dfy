/** The JSON query plan as the executor receives it. Each optional field is
    an `Option`: `None` when the key is absent from the JSON object. */
module Plans {
  import opened Wrappers
  import opened Frames

  /** The `files` field: a JSON list of names, or any other JSON value. */
  datatype FilesField = FileList(names: seq<string>) | NotAList

  /** The `value` of a filter clause: a scalar, a JSON list, or absent. */
  datatype Literal = Single(v: Value) | Many(vs: seq<Value>) | NoValue

  /** One filter clause `{column, operator, value}`; each key may be absent. */
  datatype Clause = Clause(column: Option<string>, operator: Option<string>, value: Literal)

  datatype Plan = Plan(
    files: Option<FilesField>,
    operation: Option<string>,
    aggregation: Option<string>,
    groupBy: Option<string>,
    metric: Option<string>,
    filters: Option<seq<Clause>>,
    sort: Option<string>,
    limit: Option<int>)

  const AllowedFiles: seq<string> := ["trades.csv", "holdings.csv"]
  const AllowedOperations: seq<string> := ["count", "aggregate", "group_by", "sort", "filter", "limit"]
  const AllowedAggregations: seq<string> := ["sum", "mean", "min", "max", "count"]

  /** Python truthiness of an optional string field: present and non-empty. */
  predicate Truthy(field: Option<string>) {
    field.Some? && field.value != ""
  }

  /** Python truthiness of the `limit` field: present and non-zero. */
  predicate LimitTruthy(limit: Option<int>) {
    limit.Some? && limit.value != 0
  }

  /** Python truthiness of the `filters` field: present and non-empty. */
  predicate FiltersTruthy(filters: Option<seq<Clause>>) {
    filters.Some? && |filters.value| > 0
  }

  /** Why the validator refused a plan: one constructor per early return. */
  datatype Rejection =
    | MissingFiles
    | MissingOperation
    | FilesNotAList
    | FileNotAllowed(file: string)
    | FileNotLoaded(file: string)
    | OperationNotAllowed(operation: string)
    | AggregationMissing
    | AggregationNotAllowed(aggregation: string)
    | ColumnNotFound(column: string, file: string)
    | FilterColumnNotFound(column: string, file: string)

  /** Python's `str()` of a list of plain strings: `['a', 'b']`. */
  function ListText(xs: seq<string>): string {
    "[" + Joined(xs) + "]"
  }

  function Joined(xs: seq<string>): string {
    if xs == [] then ""
    else if |xs| == 1 then "'" + xs[0] + "'"
    else "'" + xs[0] + "', " + Joined(xs[1..])
  }

  /** The message the validator returns with `False` for each rejection. */
  function Message(r: Rejection): (m: string)
    ensures m != ""
  {
    match r
    case MissingFiles => "Missing 'files' field in plan"
    case MissingOperation => "Missing 'operation' field in plan"
    case FilesNotAList => "'files' must be a list"
    case FileNotAllowed(f) =>
      "File '" + f + "' is not allowed. Allowed files: " + ListText(AllowedFiles)
    case FileNotLoaded(f) => "File '" + f + "' not found or could not be loaded"
    case OperationNotAllowed(op) =>
      "Operation '" + op + "' not allowed. Allowed: " + ListText(AllowedOperations)
    case AggregationMissing => "Operation 'aggregate' requires 'aggregation' field"
    case AggregationNotAllowed(a) =>
      "Aggregation '" + a + "' not allowed. Allowed: " + ListText(AllowedAggregations)
    case ColumnNotFound(c, f) => "Column '" + c + "' not found in " + f
    case FilterColumnNotFound(c, f) => "Filter column '" + c + "' not found in " + f
  }

  /** The file whitelist renders as Python prints it. */
  lemma FileWhitelistText()
    ensures ListText(AllowedFiles) == "['trades.csv', 'holdings.csv']"
  {
    var fs := AllowedFiles;
    assert fs[1..] == ["holdings.csv"];
    assert Joined(fs[1..]) == "'holdings.csv'";
  }
}
