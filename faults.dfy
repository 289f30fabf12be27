/** What can go wrong while a validated plan runs. Every case but
    `NotLoaded` is an exception caught by the executor's `except` clause,
    whose `str()` becomes the response's error text. */
module Faults {
  import opened Wrappers

  datatype Fault =
    | IndexOutOfRange                 // plan['files'][0] on an empty list
    | NotLoaded(file: string)         // the first file's table is absent (an early return)
    | KeyMissing(key: Option<string>) // df[key] for a key that is not a column (None: key absent)
    | SelectionNotFound(key: Option<string>) // grouped[key] for a key that is not a column
    | NotListLike(typeName: string)   // Series.isin given a scalar
    | ListComparison                  // a column compared with a list by ==, != or an ordering
    | Unorderable(op: string, left: string, right: string) // an ordering between an int and a str
    | NonNumeric                      // sum, mean, min or max over a column holding a string
    | UnboundResult                   // no branch assigned `result`

  function KeyText(key: Option<string>): string {
    match key
    case Some(k) => k
    case None => "None"
  }

  /** The fixed parts of the error texts. */
  const IndexErrorText: string := "list index out of range"
  const IsinPrefix: string := "only list-like objects are allowed to be passed to isin(), you passed a `"
  const LengthsText: string := "Lengths must match to compare"
  const NotSupportedText: string := "' not supported between instances of '"
  const OperandText: string := "unsupported operand type(s) for +: 'int' and 'str'"
  const UnboundText: string := "cannot access local variable 'result' where it is not associated with a value"

  /** The error text of the failed response. */
  function Text(f: Fault): (t: string)
    ensures t != ""
  {
    match f
    case IndexOutOfRange => IndexErrorText
    case NotLoaded(file) => "File '" + file + "' not loaded"
    case KeyMissing(Some(k)) => "'" + k + "'"
    case KeyMissing(None) => "None"
    case SelectionNotFound(key) => "'Column not found: " + KeyText(key) + "'"
    case NotListLike(t) => IsinPrefix + t + "`"
    case ListComparison => LengthsText
    case Unorderable(op, l, r) => "'" + op + NotSupportedText + l + "' and '" + r + "'"
    case NonNumeric => OperandText
    case UnboundResult => UnboundText
  }
}
