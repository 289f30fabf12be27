/** The plan validator: a chain of checks, each of which may refuse the plan
    with its own message. Nothing here reads a table's rows; only whether a
    table is loaded and what its columns are. */
module Validation {
  import opened Wrappers
  import opened Frames
  import opened Plans

  /** The two tables the executor may hold; `None` when one is not loaded. */
  datatype Store = Store(trades: Option<Table>, holdings: Option<Table>)

  /** The table a file name stands for; unknown names have none. */
  function Lookup(store: Store, name: string): (t: Option<Table>)
    ensures t.Some? ==> name in AllowedFiles
    ensures name == AllowedFiles[0] ==> t == store.trades
    ensures name == AllowedFiles[1] ==> t == store.holdings
  {
    if name == "trades.csv" then store.trades
    else if name == "holdings.csv" then store.holdings
    else None
  }

  /** The check of one listed file: whitelisted, then loaded. */
  function FileCheck(store: Store, file: string): Option<Rejection> {
    if file !in AllowedFiles then Some(FileNotAllowed(file))
    else if Lookup(store, file).None? then Some(FileNotLoaded(file))
    else None
  }

  /** The first loop over `files`: the first file that fails its check. */
  function CheckFiles(files: seq<string>, store: Store): (r: Option<Rejection>)
    ensures r.None? <==> forall f :: f in files ==> f in AllowedFiles && Lookup(store, f).Some?
  {
    if files == [] then None
    else if FileCheck(store, files[0]).Some? then FileCheck(store, files[0])
    else CheckFiles(files[1..], store)
  }

  /** The operation and aggregation whitelists. */
  function OperationCheck(plan: Plan): (r: Option<Rejection>)
    requires plan.operation.Some?
    ensures r.None? <==>
      && plan.operation.value in AllowedOperations
      && (plan.operation.value == "aggregate" ==>
            plan.aggregation.Some? && plan.aggregation.value in AllowedAggregations)
  {
    var op := plan.operation.value;
    if op !in AllowedOperations then Some(OperationNotAllowed(op))
    else if op == "aggregate" && plan.aggregation.None? then Some(AggregationMissing)
    else if op == "aggregate" && plan.aggregation.value !in AllowedAggregations then
      Some(AggregationNotAllowed(plan.aggregation.value))
    else None
  }

  /** The inner loop over filter clauses: the first clause naming a column
      the table lacks. A clause without a `column` key is not checked. */
  function FilterColumnCheck(clauses: seq<Clause>, file: string, columns: seq<string>): (r: Option<Rejection>)
    ensures r.None? <==> forall c :: c in clauses && c.column.Some? ==> c.column.value in columns
    ensures r.Some? ==> exists c :: c in clauses && c.column.Some? && c.column.value !in columns
                                    && r == Some(FilterColumnNotFound(c.column.value, file))
  {
    if clauses == [] then None
    else if clauses[0].column.Some? && clauses[0].column.value !in columns then
      Some(FilterColumnNotFound(clauses[0].column.value, file))
    else
      assert forall c :: c in clauses[1..] ==> c in clauses;
      FilterColumnCheck(clauses[1..], file, columns)
  }

  /** The column checks against one listed file's columns. */
  function ColumnCheck(plan: Plan, file: string, columns: seq<string>): Option<Rejection> {
    if Truthy(plan.groupBy) && plan.groupBy.value !in columns then
      Some(ColumnNotFound(plan.groupBy.value, file))
    else if Truthy(plan.metric) && plan.metric.value !in columns then
      Some(ColumnNotFound(plan.metric.value, file))
    else if plan.filters.Some? then FilterColumnCheck(plan.filters.value, file, columns)
    else None
  }

  /** Every column the plan names, in the one table with these columns. */
  ghost predicate ColumnsExist(plan: Plan, columns: seq<string>) {
    && (Truthy(plan.groupBy) ==> plan.groupBy.value in columns)
    && (Truthy(plan.metric) ==> plan.metric.value in columns)
    && (plan.filters.Some? ==>
          forall c :: c in plan.filters.value && c.column.Some? ==> c.column.value in columns)
  }

  /** The second loop over `files`: the first file whose columns fail. */
  function CheckColumns(files: seq<string>, plan: Plan, store: Store): (r: Option<Rejection>)
    requires forall f :: f in files ==> Lookup(store, f).Some?
    ensures r.None? <==> forall f :: f in files ==> ColumnsExist(plan, Lookup(store, f).value.columns)
  {
    if files == [] then None
    else
      var first := ColumnCheck(plan, files[0], Lookup(store, files[0]).value.columns);
      if first.Some? then first
      else
        assert forall f :: f in files[1..] ==> f in files;
        CheckColumns(files[1..], plan, store)
  }

  /** The whole validator: `None` for `(True, "")`, otherwise the reason
      behind `(False, message)`. */
  function Validate(plan: Plan, store: Store): (r: Option<Rejection>)
    ensures r.None? ==> plan.files.Some? && plan.files.value.FileList? && plan.operation.Some?
    ensures r.None? ==> forall f :: f in plan.files.value.names ==> Lookup(store, f).Some?
  {
    if plan.files.None? then Some(MissingFiles)
    else if plan.operation.None? then Some(MissingOperation)
    else if plan.files.value.NotAList? then Some(FilesNotAList)
    else
      var files := plan.files.value.names;
      var fileCheck := CheckFiles(files, store);
      if fileCheck.Some? then fileCheck
      else
        var opCheck := OperationCheck(plan);
        if opCheck.Some? then opCheck
        else CheckColumns(files, plan, store)
  }

  /** The pair `_validate_plan` returns. */
  function Verdict(plan: Plan, store: Store): (v: (bool, string))
    ensures v.0 <==> Validate(plan, store).None?
    ensures v.0 <==> v.1 == ""
  {
    match Validate(plan, store)
    case None => (true, "")
    case Some(r) => (false, Message(r))
  }

  /** The plans the validator accepts, stated as conditions rather than as
      a sequence of checks. */
  ghost predicate Acceptable(plan: Plan, store: Store) {
    && plan.files.Some? && plan.files.value.FileList?
    && plan.operation.Some?
    && (forall f :: f in plan.files.value.names ==> f in AllowedFiles && Lookup(store, f).Some?)
    && plan.operation.value in AllowedOperations
    && (plan.operation.value == "aggregate" ==>
          plan.aggregation.Some? && plan.aggregation.value in AllowedAggregations)
    && (forall f :: f in plan.files.value.names ==>
          ColumnsExist(plan, Lookup(store, f).value.columns))
  }

  /** The validator accepts exactly the acceptable plans. */
  lemma ValidateAcceptsExactly(plan: Plan, store: Store)
    ensures Validate(plan, store).None? <==> Acceptable(plan, store)
  {
  }

  /** The first loop reports the first file that fails, all earlier files
      being whitelisted and loaded. */
  lemma {:induction false} FirstFailingFile(files: seq<string>, store: Store)
    requires CheckFiles(files, store).Some?
    ensures exists i :: 0 <= i < |files|
                        && (forall j :: 0 <= j < i ==> FileCheck(store, files[j]).None?)
                        && CheckFiles(files, store) == FileCheck(store, files[i])
  {
    if FileCheck(store, files[0]).None? {
      FirstFailingFile(files[1..], store);
      var i :| 0 <= i < |files[1..]|
               && (forall j :: 0 <= j < i ==> FileCheck(store, files[1..][j]).None?)
               && CheckFiles(files[1..], store) == FileCheck(store, files[1..][i]);
      PassingPrefixShift(files, store, i);
      assert CheckFiles(files, store) == CheckFiles(files[1..], store);
      assert files[1..][i] == files[i + 1];
    } else {
      assert CheckFiles(files, store) == FileCheck(store, files[0]);
    }
  }

  /** Files passing their checks before position `i` of the tail, after a
      passing head, pass before position `i + 1` of the whole list. */
  lemma PassingPrefixShift(files: seq<string>, store: Store, i: nat)
    requires files != [] && FileCheck(store, files[0]).None? && i < |files| - 1
    requires forall j :: 0 <= j < i ==> FileCheck(store, files[1..][j]).None?
    ensures forall j :: 0 <= j < i + 1 ==> FileCheck(store, files[j]).None?
  {
    forall j | 0 <= j < i + 1 ensures FileCheck(store, files[j]).None? {
      if j > 0 { assert files[j] == files[1..][j - 1]; }
    }
  }

  /** A column rejection from the second loop names a listed, loaded file
      and a column of the plan that file lacks. */
  lemma {:induction false} ColumnRejectionNamesCulprit(files: seq<string>, plan: Plan, store: Store)
    requires forall f :: f in files ==> Lookup(store, f).Some?
    ensures match CheckColumns(files, plan, store)
      case Some(ColumnNotFound(c, f)) =>
        && f in files && c !in Lookup(store, f).value.columns
        && ((Truthy(plan.groupBy) && c == plan.groupBy.value) || (Truthy(plan.metric) && c == plan.metric.value))
      case Some(FilterColumnNotFound(c, f)) =>
        && f in files && c !in Lookup(store, f).value.columns
        && plan.filters.Some? && exists cl :: cl in plan.filters.value && cl.column == Some(c)
      case Some(_) => false
      case None => true
  {
    if files != [] {
      var first := ColumnCheck(plan, files[0], Lookup(store, files[0]).value.columns);
      if first.None? {
        assert forall f :: f in files[1..] ==> f in files;
        ColumnRejectionNamesCulprit(files[1..], plan, store);
      }
    }
  }

  /** Each rejection of the validator is the one its message describes:
      a missing field, a file outside the whitelist or not loaded, an
      operation or aggregation outside its whitelist, or a column missing
      from a listed file. */
  lemma RejectionNamesCulprit(plan: Plan, store: Store)
    ensures Validate(plan, store) == Some(MissingFiles) <==> plan.files.None?
    ensures Validate(plan, store) == Some(MissingOperation) <==>
              plan.files.Some? && plan.operation.None?
    ensures Validate(plan, store) == Some(FilesNotAList) <==>
              plan.files == Some(NotAList) && plan.operation.Some?
    ensures match Validate(plan, store)
      case Some(FileNotAllowed(f)) =>
        plan.files.Some? && plan.files.value.FileList? && f in plan.files.value.names && f !in AllowedFiles
      case Some(FileNotLoaded(f)) =>
        && plan.files.Some? && plan.files.value.FileList? && f in plan.files.value.names
        && f in AllowedFiles && Lookup(store, f).None?
      case Some(OperationNotAllowed(op)) =>
        plan.operation == Some(op) && op !in AllowedOperations
      case Some(AggregationMissing) =>
        plan.operation == Some("aggregate") && plan.aggregation.None?
      case Some(AggregationNotAllowed(a)) =>
        plan.operation == Some("aggregate") && plan.aggregation == Some(a) && a !in AllowedAggregations
      case Some(ColumnNotFound(c, f)) =>
        && plan.files.Some? && plan.files.value.FileList? && f in plan.files.value.names
        && Lookup(store, f).Some? && c !in Lookup(store, f).value.columns
        && ((Truthy(plan.groupBy) && c == plan.groupBy.value) || (Truthy(plan.metric) && c == plan.metric.value))
      case Some(FilterColumnNotFound(c, f)) =>
        && plan.files.Some? && plan.files.value.FileList? && f in plan.files.value.names
        && Lookup(store, f).Some? && c !in Lookup(store, f).value.columns
        && plan.filters.Some? && exists cl :: cl in plan.filters.value && cl.column == Some(c)
      case _ => true
  {
    if plan.files.Some? && plan.operation.Some? && plan.files.value.FileList? {
      var files := plan.files.value.names;
      if CheckFiles(files, store).Some? {
        FirstFailingFile(files, store);
      } else if OperationCheck(plan).None? {
        ColumnRejectionNamesCulprit(files, plan, store);
      }
    }
  }

  /** What the validator needs to know of a table: whether it is loaded,
      and its columns. */
  function Schema(t: Option<Table>): Option<seq<string>> {
    match t
    case Some(table) => Some(table.columns)
    case None => None
  }

  ghost predicate SameSchemas(s1: Store, s2: Store) {
    Schema(s1.trades) == Schema(s2.trades) && Schema(s1.holdings) == Schema(s2.holdings)
  }

  lemma {:induction false} CheckFilesReadsOnlySchemas(files: seq<string>, s1: Store, s2: Store)
    requires SameSchemas(s1, s2)
    ensures CheckFiles(files, s1) == CheckFiles(files, s2)
  {
    if files != [] {
      assert Lookup(s1, files[0]).None? == Lookup(s2, files[0]).None?;
      CheckFilesReadsOnlySchemas(files[1..], s1, s2);
    }
  }

  lemma {:induction false} CheckColumnsReadsOnlySchemas(files: seq<string>, plan: Plan, s1: Store, s2: Store)
    requires SameSchemas(s1, s2)
    requires forall f :: f in files ==> Lookup(s1, f).Some?
    ensures forall f :: f in files ==> Lookup(s2, f).Some?
    ensures CheckColumns(files, plan, s1) == CheckColumns(files, plan, s2)
  {
    assert forall f :: f in files ==> Schema(Lookup(s1, f)) == Schema(Lookup(s2, f));
    if files != [] {
      assert forall f :: f in files[1..] ==> f in files;
      CheckColumnsReadsOnlySchemas(files[1..], plan, s1, s2);
    }
  }

  /** The validator reads no row of any table: two stores whose tables are
      loaded alike and have the same columns get the same verdict. */
  lemma ValidationReadsOnlySchemas(plan: Plan, s1: Store, s2: Store)
    requires SameSchemas(s1, s2)
    ensures Validate(plan, s1) == Validate(plan, s2)
  {
    if plan.files.Some? && plan.operation.Some? && plan.files.value.FileList? {
      var files := plan.files.value.names;
      CheckFilesReadsOnlySchemas(files, s1, s2);
      if CheckFiles(files, s1).None? {
        CheckColumnsReadsOnlySchemas(files, plan, s1, s2);
      }
    }
  }

  /** `metric` is never required: dropping it from an accepted plan keeps
      the plan accepted, even for `aggregate`. */
  lemma MetricNotRequired(plan: Plan, store: Store)
    requires Validate(plan, store).None?
    ensures Validate(plan.(metric := None), store).None?
  {
    ValidateAcceptsExactly(plan, store);
    ValidateAcceptsExactly(plan.(metric := None), store);
  }

  /** An empty `files` list passes every file and column check. */
  lemma EmptyFileListAccepted(plan: Plan, store: Store)
    requires plan.files == Some(FileList([]))
    requires plan.operation.Some?
    ensures Validate(plan, store).None? <==> OperationCheck(plan).None?
  {
  }
}
