/** `QueryExecutor`: an object holding the two tables, which validates and
    executes query plans against them. The tables are handed to the
    constructor rather than read from CSV files. */
module Executor {
  import opened Wrappers
  import opened Frames
  import opened Plans
  import opened Faults
  import opened Validation
  import opened Filtering
  import opened Aggregation
  import opened Ordering
  import opened Interpreter

  class QueryExecutor {
    var trades: Option<Table>
    var holdings: Option<Table>

    ghost predicate Valid()
      reads this
    {
      StoreWellFormed(Store(trades, holdings))
    }

    /** The tables as the specification functions see them. */
    function State(): Store
      reads this
    {
      Store(trades, holdings)
    }

    constructor (trades: Option<Table>, holdings: Option<Table>)
      requires StoreWellFormed(Store(trades, holdings))
      ensures Valid()
      ensures this.trades == trades && this.holdings == holdings
    {
      this.trades := trades;
      this.holdings := holdings;
    }

    /** `_get_dataframe`: the table a file name stands for, if loaded. */
    method GetDataframe(filename: string) returns (df: Option<Table>)
      ensures df == Lookup(State(), filename)
      ensures df.Some? ==> filename in AllowedFiles
    {
      if filename == "trades.csv" {
        return trades;
      } else if filename == "holdings.csv" {
        return holdings;
      }
      return None;
    }

    /** `_validate_plan`: `(True, "")` for an acceptable plan, otherwise
        `False` and the message of the first check that fails. */
    method ValidatePlan(plan: Plan) returns (isValid: bool, message: string)
      ensures isValid <==> Validate(plan, State()).None?
      ensures isValid ==> message == ""
      ensures !isValid ==> message == Message(Validate(plan, State()).value)
      ensures (isValid, message) == Verdict(plan, State())
    {
      if plan.files.None? {
        return false, Message(MissingFiles);
      }
      if plan.operation.None? {
        return false, Message(MissingOperation);
      }
      if plan.files.value.NotAList? {
        return false, Message(FilesNotAList);
      }
      var files := plan.files.value.names;
      for i := 0 to |files|
        invariant CheckFiles(files, State()) == CheckFiles(files[i..], State())
      {
        var file := files[i];
        if file !in AllowedFiles {
          return false, Message(FileNotAllowed(file));
        }
        var df := GetDataframe(file);
        if df.None? {
          return false, Message(FileNotLoaded(file));
        }
        assert files[i..][1..] == files[i + 1..];
      }
      var operation := plan.operation.value;
      if operation !in AllowedOperations {
        return false, Message(OperationNotAllowed(operation));
      }
      if operation == "aggregate" {
        if plan.aggregation.None? {
          return false, Message(AggregationMissing);
        }
        if plan.aggregation.value !in AllowedAggregations {
          return false, Message(AggregationNotAllowed(plan.aggregation.value));
        }
      }
      var missing := FindMissingColumn(files, plan);
      if missing.Some? {
        return false, Message(missing.value);
      }
      return true, "";
    }

    /** The second loop of `_validate_plan`: the first listed file lacking a
        column the plan names, as the rejection it causes. */
    method FindMissingColumn(files: seq<string>, plan: Plan) returns (missing: Option<Rejection>)
      requires forall f :: f in files ==> Lookup(State(), f).Some?
      ensures missing == CheckColumns(files, plan, State())
    {
      for i := 0 to |files|
        invariant CheckColumns(files, plan, State()) == CheckColumns(files[i..], plan, State())
      {
        var file := files[i];
        assert file in files;
        var df := GetDataframe(file);
        var columns := df.value.columns;
        if Truthy(plan.groupBy) && plan.groupBy.value !in columns {
          return Some(ColumnNotFound(plan.groupBy.value, file));
        }
        if Truthy(plan.metric) && plan.metric.value !in columns {
          return Some(ColumnNotFound(plan.metric.value, file));
        }
        if plan.filters.Some? {
          var clauses := plan.filters.value;
          for j := 0 to |clauses|
            invariant FilterColumnCheck(clauses, file, columns) == FilterColumnCheck(clauses[j..], file, columns)
          {
            var clause := clauses[j];
            if clause.column.Some? && clause.column.value !in columns {
              return Some(FilterColumnNotFound(clause.column.value, file));
            }
            assert clauses[j..][1..] == clauses[j + 1..];
          }
        }
        assert files[i..][1..] == files[i + 1..];
      }
      return None;
    }

    /** `execute_plan`: validate, then run the pipeline over the first
        listed table, turning any raised error into a failed response. */
    method ExecutePlan(plan: Plan) returns (response: Response)
      requires Valid()
      ensures response == Execute(plan, State())
    {
      var isValid, errorMsg := ValidatePlan(plan);
      if !isValid {
        return Failed(errorMsg);
      }
      var files := plan.files.value.names;
      if |files| == 0 {
        return Failed(Text(IndexOutOfRange));
      }
      var filename := files[0];
      var table := GetDataframe(filename);
      if table.None? {
        return Failed(Text(NotLoaded(filename)));
      }
      var columns := table.value.columns;
      var df := table.value.rows;
      if FiltersTruthy(plan.filters) {
        var clauses := plan.filters.value;
        for i := 0 to |clauses|
          invariant Rectangular(columns, df)
          invariant ApplyFilters(columns, table.value.rows, clauses) == ApplyFilters(columns, df, clauses[i..])
        {
          var clause := clauses[i];
          var operator := OperatorOf(clause);
          assert clauses[i..][0] == clause && clauses[i..][1..] == clauses[i + 1..];
          if operator in KnownOperators {
            var fault := ClauseFault(columns, df, clause);
            if fault.Some? {
              return Failed(Text(fault.value));
            }
            df := FilterRows(df, clause.column.value, operator, clause.value);
          }
        }
      }
      var computed := Compute(plan, columns, df);
      if computed.Err? {
        return Failed(Text(computed.error));
      }
      var result := computed.value;
      if Truthy(plan.sort) && result.Mapping? {
        result := Mapping(SortByValue(result.entries, plan.sort.value == "desc"));
      }
      if LimitTruthy(plan.limit) && result.Mapping? {
        result := Mapping(Take(result.entries, plan.limit.value));
      }
      return Response(true, Some(result), None, Some(plan));
    }

    /** `get_available_columns`: the columns of each loaded table. */
    method GetAvailableColumns() returns (columns: map<string, seq<string>>)
      ensures forall f :: f in columns <==> f in AllowedFiles && Lookup(State(), f).Some?
      ensures forall f :: f in columns ==> columns[f] == Lookup(State(), f).value.columns
    {
      columns := map[];
      if trades.Some? {
        columns := columns["trades.csv" := trades.value.columns];
      }
      if holdings.Some? {
        columns := columns["holdings.csv" := holdings.value.columns];
      }
    }
  }
}
