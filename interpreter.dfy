/** The whole of `execute_plan` as a function of the plan and the two
    tables: validate, then filter, count or aggregate, sort, limit. */
module Interpreter {
  import opened Wrappers
  import opened Frames
  import opened Plans
  import opened Faults
  import opened Validation
  import opened Filtering
  import opened Aggregation
  import opened Ordering

  /** A result value: a number, or a mapping from group key to number. */
  datatype Answer = Scalar(n: Number) | Mapping(entries: Entries)

  /** The dictionary `execute_plan` returns: `success`, `result`, `error`
      and, on success only, the plan itself. */
  datatype Response = Response(success: bool, result: Option<Answer>, error: Option<string>, plan: Option<Plan>)

  function Failed(error: string): (r: Response)
    ensures !r.success && r.result.None? && r.error == Some(error)
  {
    Response(false, None, Some(error), None)
  }

  ghost predicate StoreWellFormed(store: Store) {
    && (store.trades.Some? ==> WellFormed(store.trades.value))
    && (store.holdings.Some? ==> WellFormed(store.holdings.value))
  }

  /** The `count` / `aggregate` branch over the filtered rows. Any other
      operation assigns no result. */
  function Compute(plan: Plan, columns: seq<string>, rows: seq<Row>): (r: Result<Answer, Fault>)
    requires plan.operation.Some?
    requires Rectangular(columns, rows)
    ensures r.Ok? && r.value.Mapping? ==> Distinct(EntryKeys(r.value.entries))
  {
    var op := plan.operation.value;
    var grouped := Truthy(plan.groupBy);
    if op == "count" then
      if !grouped then Ok(Scalar(Finite(|rows| as real)))
      else if plan.groupBy.value !in columns then Err(KeyMissing(plan.groupBy))
      else
        GroupedCountKeys(rows, plan.groupBy.value);
        Ok(Mapping(GroupedCount(rows, plan.groupBy.value)))
    else if op == "aggregate" then
      var agg := plan.aggregation.GetOr("sum");
      if grouped then
        if plan.groupBy.value !in columns then Err(KeyMissing(plan.groupBy))
        else if plan.metric.None? || plan.metric.value !in columns then Err(SelectionNotFound(plan.metric))
        else
          match GroupedReduce(agg, rows, plan.groupBy.value, plan.metric.value)
          case Err(f) => Err(f)
          case Ok(es) =>
            OneEntryPerKey(agg, rows, plan.groupBy.value, plan.metric.value);
            Ok(Mapping(es))
      else if agg !in AllowedAggregations then Err(UnboundResult)
      else if plan.metric.None? || plan.metric.value !in columns then Err(KeyMissing(plan.metric))
      else
        match Reduce(agg, rows, plan.metric.value)
        case Err(f) => Err(f)
        case Ok(n) => Ok(Scalar(n))
    else Err(UnboundResult)
  }

  /** The sort step, then the limit step; both leave a scalar alone. */
  function Finish(plan: Plan, answer: Answer): (r: Answer)
    ensures answer.Scalar? ==> r == answer
    ensures r.Mapping? <==> answer.Mapping?
    ensures r.Mapping? ==> |r.entries| <= |answer.entries| && forall x :: x in r.entries ==> x in answer.entries
  {
    var sorted :=
      if Truthy(plan.sort) && answer.Mapping? then
        Mapping(SortByValue(answer.entries, plan.sort.value == "desc"))
      else answer;
    assert sorted.Mapping? ==> answer.Mapping? && multiset(sorted.entries) == multiset(answer.entries);
    assert sorted.Mapping? ==> |multiset(sorted.entries)| == |sorted.entries| == |answer.entries|;
    assert sorted.Mapping? ==> forall x :: x in sorted.entries ==> x in multiset(answer.entries);
    if LimitTruthy(plan.limit) && sorted.Mapping? then
      var kept := Take(sorted.entries, plan.limit.value);
      PrefixMembers(kept, sorted.entries);
      Mapping(kept)
    else sorted
  }

  lemma PrefixMembers(p: Entries, s: Entries)
    requires p <= s
    ensures forall x :: x in p ==> x in s
  {
    forall x | x in p ensures x in s {
      var i :| 0 <= i < |p| && p[i] == x;
      assert s[i] == x;
    }
  }

  /** The filter step: the rows of the table after every clause. */
  function Filtered(plan: Plan, t: Table): (r: Result<seq<Row>, Fault>)
    requires WellFormed(t)
    ensures r.Ok? ==> Rectangular(t.columns, r.value)
  {
    if FiltersTruthy(plan.filters) then ApplyFilters(t.columns, t.rows, plan.filters.value)
    else Ok(t.rows)
  }

  /** The `try` block of `execute_plan`, for a plan that passed validation:
      only the first listed table is queried. */
  function Run(plan: Plan, store: Store): (r: Result<Answer, Fault>)
    requires Validate(plan, store).None?
    requires StoreWellFormed(store)
    ensures r.Ok? ==> plan.files.value.names != [] && Lookup(store, plan.files.value.names[0]).Some?
    ensures r.Ok? && r.value.Mapping? ==> Distinct(EntryKeys(r.value.entries))
  {
    var files := plan.files.value.names;
    if files == [] then Err(IndexOutOfRange)
    else
      match Lookup(store, files[0])
      case None => Err(NotLoaded(files[0]))
      case Some(t) =>
        match Filtered(plan, t)
        case Err(f) => Err(f)
        case Ok(rows) =>
          match Compute(plan, t.columns, rows)
          case Err(f) => Err(f)
          case Ok(a) =>
            if a.Mapping? then
              SortThenLimit(plan, a.entries);
              Ok(Finish(plan, a))
            else Ok(Finish(plan, a))
  }

  /** `execute_plan`. */
  function Execute(plan: Plan, store: Store): (r: Response)
    requires StoreWellFormed(store)
    ensures r.success <==> r.error.None?
    ensures r.success ==> r.result.Some? && r.plan == Some(plan) && Validate(plan, store).None?
    ensures !r.success ==> r.result.None? && r.plan.None? && r.error.value != ""
  {
    match Validate(plan, store)
    case Some(r) => Failed(Message(r))
    case None =>
      match Run(plan, store)
      case Err(f) => Failed(Text(f))
      case Ok(a) => Response(true, Some(a), None, Some(plan))
  }

  /** An invalid plan fails with the validator's message and no result. */
  lemma InvalidPlanRejected(plan: Plan, store: Store, reason: Rejection)
    requires StoreWellFormed(store)
    requires Validate(plan, store) == Some(reason)
    ensures var r := Execute(plan, store);
            !r.success && r.result.None? && r.error == Some(Message(reason))
  {
  }

  /** An invalid plan touches no data: its response is the same whatever
      rows the tables hold, as long as their columns are the same. */
  lemma InvalidPlanTouchesNoData(plan: Plan, s1: Store, s2: Store)
    requires StoreWellFormed(s1) && StoreWellFormed(s2)
    requires SameSchemas(s1, s2)
    requires Validate(plan, s1).Some?
    ensures Execute(plan, s1) == Execute(plan, s2)
  {
    ValidationReadsOnlySchemas(plan, s1, s2);
  }

  /** Only the first listed table is queried: the other listed tables
      matter only through their columns. */
  lemma OnlyFirstTableQueried(plan: Plan, s1: Store, s2: Store)
    requires StoreWellFormed(s1) && StoreWellFormed(s2)
    requires SameSchemas(s1, s2)
    requires plan.files.Some? && plan.files.value.FileList? && |plan.files.value.names| > 0
    requires Lookup(s1, plan.files.value.names[0]) == Lookup(s2, plan.files.value.names[0])
    ensures Execute(plan, s1) == Execute(plan, s2)
  {
    ValidationReadsOnlySchemas(plan, s1, s2);
  }

  /** A valid plan with an empty `files` list fails with `IndexError`. */
  lemma EmptyFileListFails(plan: Plan, store: Store)
    requires StoreWellFormed(store)
    requires Validate(plan, store).None?
    requires plan.files == Some(FileList([]))
    ensures Execute(plan, store) == Failed("list index out of range")
  {
  }

  /** A valid `aggregate` plan without `metric` never succeeds: selecting
      the `None` column raises `KeyError`. */
  lemma MissingMetricFails(plan: Plan, store: Store)
    requires StoreWellFormed(store)
    requires Validate(plan, store).None?
    requires plan.operation == Some("aggregate") && plan.metric.None?
    ensures !Execute(plan, store).success && Execute(plan, store).result.None?
  {
  }

  /** `group_by`, `sort`, `filter` and `limit` pass validation but have no
      branch: such a plan never succeeds, and once the filters raise nothing
      it fails because `result` was never assigned. */
  lemma OperationWithoutBranchFails(plan: Plan, store: Store)
    requires StoreWellFormed(store)
    requires Validate(plan, store).None?
    requires plan.operation.value in ["group_by", "sort", "filter", "limit"]
    ensures !Execute(plan, store).success && Execute(plan, store).result.None?
    ensures var files := plan.files.value.names;
            files != [] && Filtered(plan, Lookup(store, files[0]).value).Ok? ==>
              Execute(plan, store).error == Some(Text(UnboundResult))
  {
    var files := plan.files.value.names;
    if files != [] {
      assert files[0] in files;
    }
  }

  /** A prefix keeps sortedness and distinct keys, and drops entries only. */
  lemma PrefixKeeps(s: Entries, fs: Entries, desc: bool)
    requires fs <= s
    ensures multiset(fs) <= multiset(s)
    ensures Sorted(s, desc) ==> Sorted(fs, desc)
    ensures Distinct(EntryKeys(s)) ==> Distinct(EntryKeys(fs))
  {
    assert s == fs + s[|fs|..];
    assert multiset(s) == multiset(fs) + multiset(s[|fs|..]);
    if Distinct(EntryKeys(s)) {
      forall i, j | 0 <= i < j < |fs| ensures EntryKeys(fs)[i] != EntryKeys(fs)[j] {
        assert EntryKeys(fs)[i] == EntryKeys(s)[i] && EntryKeys(fs)[j] == EntryKeys(s)[j];
      }
    }
  }

  /** The sort step alone: a permutation with the same keys, ordered by
      value when `sort` is truthy. */
  lemma SortStep(plan: Plan, es: Entries)
    requires Distinct(EntryKeys(es))
    ensures var sorted := if Truthy(plan.sort) then SortByValue(es, plan.sort.value == "desc") else es;
            && multiset(sorted) == multiset(es)
            && Distinct(EntryKeys(sorted))
            && (Truthy(plan.sort) ==> Sorted(sorted, plan.sort.value == "desc"))
  {
    if Truthy(plan.sort) {
      SortSortedAndStable(es, plan.sort.value == "desc");
      SortKeepsKeysDistinct(es, plan.sort.value == "desc");
    }
  }

  /** Sort, then limit, on a mapping: the entries kept are the first ones of
      the sorted mapping, one per key, each from the original mapping; a
      truthy `sort` orders them by value (non-increasing for `desc`), and
      without a truthy `limit` nothing is dropped. */
  lemma SortThenLimit(plan: Plan, es: Entries)
    requires Distinct(EntryKeys(es))
    ensures Finish(plan, Mapping(es)).Mapping?
    ensures var fs := Finish(plan, Mapping(es)).entries;
            var sorted := if Truthy(plan.sort) then SortByValue(es, plan.sort.value == "desc") else es;
            && Distinct(EntryKeys(fs))
            && fs <= sorted
            && multiset(fs) <= multiset(es)
            && (Truthy(plan.sort) ==> Sorted(fs, plan.sort.value == "desc"))
            && (!LimitTruthy(plan.limit) ==> fs == sorted && multiset(fs) == multiset(es))
            && (LimitTruthy(plan.limit) && plan.limit.value > 0 ==>
                  |fs| == if plan.limit.value < |es| then plan.limit.value else |es|)
  {
    var desc := plan.sort.Some? && plan.sort.value == "desc";
    var sorted := if Truthy(plan.sort) then SortByValue(es, plan.sort.value == "desc") else es;
    SortStep(plan, es);
    assert multiset(sorted) == multiset(es) && Distinct(EntryKeys(sorted));
    assert Finish(plan, Mapping(es)) == Mapping(if LimitTruthy(plan.limit) then Take(sorted, plan.limit.value) else sorted);
    var fs := Finish(plan, Mapping(es)).entries;
    if LimitTruthy(plan.limit) {
      TakeKeepsPrefix(sorted, plan.limit.value);
      assert |sorted| == |es| by {
        assert |multiset(sorted)| == |multiset(es)|;
      }
    }
    assert fs <= sorted;
    PrefixKeeps(sorted, fs, desc);
    assert Truthy(plan.sort) ==> Sorted(sorted, desc);
  }

  /** `aggregate` without `aggregation` reduces with `sum`; validation,
      however, never lets such a plan through. */
  lemma AggregationDefaultsToSum(plan: Plan, columns: seq<string>, rows: seq<Row>, store: Store)
    requires plan.operation == Some("aggregate") && plan.aggregation.None?
    requires Rectangular(columns, rows)
    ensures Compute(plan, columns, rows) == Compute(plan.(aggregation := Some("sum")), columns, rows)
    ensures Validate(plan, store).Some?
  {
  }

  /** `count` without `group_by` is the number of filtered rows; with it,
      one entry per distinct key whose counts add up to that number. */
  lemma CountAnswers(plan: Plan, columns: seq<string>, rows: seq<Row>)
    requires plan.operation == Some("count")
    requires Rectangular(columns, rows)
    ensures !Truthy(plan.groupBy) ==> Compute(plan, columns, rows) == Ok(Scalar(Finite(|rows| as real)))
    ensures Truthy(plan.groupBy) && plan.groupBy.value in columns ==>
              && Compute(plan, columns, rows).Ok?
              && Compute(plan, columns, rows).value.Mapping?
              && Total(Compute(plan, columns, rows).value.entries) == |rows| as real
  {
    if Truthy(plan.groupBy) && plan.groupBy.value in columns {
      GroupedCountTotal(rows, plan.groupBy.value);
    }
  }

  /** Grouped `sum` adds up to the ungrouped `sum` of the same rows. */
  lemma GroupedSumAddsUp(plan: Plan, columns: seq<string>, rows: seq<Row>)
    requires plan.operation == Some("aggregate") && plan.aggregation == Some("sum")
    requires Truthy(plan.groupBy) && plan.groupBy.value in columns
    requires plan.metric.Some? && plan.metric.value in columns
    requires Rectangular(columns, rows) && IntColumn(rows, plan.metric.value)
    ensures Compute(plan, columns, rows).Ok? && Compute(plan, columns, rows).value.Mapping?
    ensures Compute(plan.(groupBy := None), columns, rows) ==
              Ok(Scalar(Finite(Total(Compute(plan, columns, rows).value.entries))))
  {
    GroupedSumTotal(rows, plan.groupBy.value, plan.metric.value);
  }

  /** A successful mapping result has exactly one entry per key. */
  lemma SuccessfulMappingHasDistinctKeys(plan: Plan, store: Store)
    requires StoreWellFormed(store)
    requires Execute(plan, store).success
    ensures Execute(plan, store).result.Some? && Execute(plan, store).error.None?
    ensures Execute(plan, store).result.value.Mapping? ==>
              Distinct(EntryKeys(Execute(plan, store).result.value.entries))
  {
    var files := plan.files.value.names;
    var t := Lookup(store, files[0]).value;
    var rows := Filtered(plan, t).value;
    var a := Compute(plan, t.columns, rows).value;
    if a.Mapping? {
      SortThenLimit(plan, a.entries);
    }
  }

  /** A worked example: three holdings rows of funds A, B, A with profit
      100, 50, 20. */
  predicate FundRow(x: Row, fund: string, pl: int) {
    "Fund" in x && x["Fund"] == StrVal(fund) && "PL" in x && x["PL"] == IntVal(pl)
  }

  /** The funds in order of first appearance. */
  lemma ExampleKeys(a: Row, b: Row, c: Row)
    requires FundRow(a, "A", 100) && FundRow(b, "B", 50) && FundRow(c, "A", 20)
    ensures KeysOf([a, b, c], "Fund") == [StrVal("A"), StrVal("B")]
  {
    var r1, r2, r3: seq<Row> := [a], [a, b], [a, b, c];
    assert |r1[..0]| == 0 && r2[..1] == r1 && r3[..2] == r2;
    assert KeysOf(r1, "Fund") == [StrVal("A")];
    assert KeysOf(r2, "Fund") == [StrVal("A"), StrVal("B")];
  }

  /** The rows of each fund. */
  lemma ExampleMembers(a: Row, b: Row, c: Row)
    requires FundRow(a, "A", 100) && FundRow(b, "B", 50) && FundRow(c, "A", 20)
    ensures Members([a, b, c], "Fund", StrVal("A")) == [a, c]
    ensures Members([a, b, c], "Fund", StrVal("B")) == [b]
  {
    ExampleFundMembers(a, b, c, "A", [a, c], [c], [c]);
    ExampleFundMembers(a, b, c, "B", [b], [b], []);
  }

  /** One fund's rows, by unfolding the filter one row at a time. */
  lemma ExampleFundMembers(a: Row, b: Row, c: Row, fund: string, all: seq<Row>, fromB: seq<Row>, fromC: seq<Row>)
    requires FundRow(a, "A", 100) && FundRow(b, "B", 50) && FundRow(c, "A", 20)
    requires fromC == (if fund == "A" then [c] else [])
    requires fromB == (if fund == "B" then [b] else []) + fromC
    requires all == (if fund == "A" then [a] else []) + fromB
    ensures Members([a, b, c], "Fund", StrVal(fund)) == all
  {
    var rows: seq<Row> := [a, b, c];
    var tail: seq<Row> := [b, c];
    var last: seq<Row> := [c];
    assert rows[1..] == tail && tail[1..] == last && |last[1..]| == 0;
    var eq := Single(StrVal(fund));
    assert FilterRows(last, "Fund", "==", eq) == fromC;
    assert FilterRows(tail, "Fund", "==", eq) == fromB;
  }

  /** Each fund's profit, summed. */
  lemma ExampleSums(a: Row, b: Row, c: Row)
    requires FundRow(a, "A", 100) && FundRow(b, "B", 50) && FundRow(c, "A", 20)
    ensures IntColumn([a, b, c], "PL")
    ensures GroupValue("sum", [a, c], "PL") == 120.0
    ensures GroupValue("sum", [b], "PL") == 50.0
  {
    var ac, bb: seq<Row> := [a, c], [b];
    assert IntColumn(ac, "PL") && IntColumn(bb, "PL");
    var xs, ys: seq<int> := [100, 20], [50];
    assert MetricInts(ac, "PL") == xs;
    assert MetricInts(bb, "PL") == ys;
    assert xs[1..] == [20] && |ys[1..]| == 0 && |xs[1..][1..]| == 0;
    assert Sum(xs) == 120 && Sum(ys) == 50;
  }

  /** The grouped sums, in order of first appearance. */
  lemma ExampleGroups(a: Row, b: Row, c: Row)
    requires FundRow(a, "A", 100) && FundRow(b, "B", 50) && FundRow(c, "A", 20)
    ensures GroupedReduce("sum", [a, b, c], "Fund", "PL") ==
              Ok([(StrVal("A"), 120.0), (StrVal("B"), 50.0)])
  {
    var rows: seq<Row> := [a, b, c];
    ExampleKeys(a, b, c);
    ExampleGroupSums(a, b, c);
    assert "sum" in AllowedAggregations && IntColumn(rows, "PL");
  }

  /** The sums of the groups of A and B, in that order. */
  lemma ExampleGroupSums(a: Row, b: Row, c: Row)
    requires FundRow(a, "A", 100) && FundRow(b, "B", 50) && FundRow(c, "A", 20)
    ensures Groups("sum", [a, b, c], "Fund", "PL", [StrVal("A"), StrVal("B")]) ==
              [(StrVal("A"), 120.0), (StrVal("B"), 50.0)]
  {
    var rows: seq<Row> := [a, b, c];
    ExampleMembers(a, b, c);
    ExampleSums(a, b, c);
    var ks, kb := [StrVal("A"), StrVal("B")], [StrVal("B")];
    assert ks[1..] == kb && |kb[1..]| == 0;
    assert Groups("sum", rows, "Fund", "PL", kb) == [(StrVal("B"), 50.0)];
    assert Groups("sum", rows, "Fund", "PL", ks) == [(StrVal("A"), 120.0)] + Groups("sum", rows, "Fund", "PL", kb);
    assert [(StrVal("A"), 120.0)] + [(StrVal("B"), 50.0)] == [(StrVal("A"), 120.0), (StrVal("B"), 50.0)];
  }

  /** The example plan passes every check of the validator. */
  lemma ExampleValid(t: Table, plan: Plan)
    requires t.columns == ["Fund", "PL"]
    requires plan == Plan(Some(FileList(["holdings.csv"])), Some("aggregate"), Some("sum"),
                          Some("Fund"), Some("PL"), None, None, None)
    ensures Validate(plan, Store(None, Some(t))).None?
  {
    var store := Store(None, Some(t));
    assert CheckFiles(["holdings.csv"], store).None?;
    assert CheckColumns(["holdings.csv"], plan, store).None?;
  }

  /** The plan `aggregate sum of PL by Fund over holdings.csv` passes
      validation and returns A: 120, B: 50. */
  lemma FundTotals(a: Row, b: Row, c: Row, plan: Plan)
    requires FundRow(a, "A", 100) && FundRow(b, "B", 50) && FundRow(c, "A", 20)
    requires plan == Plan(Some(FileList(["holdings.csv"])), Some("aggregate"), Some("sum"),
                          Some("Fund"), Some("PL"), None, None, None)
    ensures Execute(plan, Store(None, Some(Table(["Fund", "PL"], [a, b, c])))) ==
              Response(true, Some(Mapping([(StrVal("A"), 120.0), (StrVal("B"), 50.0)])), None, Some(plan))
  {
    var t := Table(["Fund", "PL"], [a, b, c]);
    var store := Store(None, Some(t));
    var answer := Mapping([(StrVal("A"), 120.0), (StrVal("B"), 50.0)]);
    ExampleValid(t, plan);
    ExampleCompute(a, b, c, plan);
    assert Lookup(store, plan.files.value.names[0]) == Some(t);
    assert Filtered(plan, t) == Ok(t.rows);
    assert Finish(plan, answer) == answer;
    assert Run(plan, store) == Ok(answer);
  }

  /** The grouped sum, as the aggregate branch computes it. */
  lemma ExampleCompute(a: Row, b: Row, c: Row, plan: Plan)
    requires FundRow(a, "A", 100) && FundRow(b, "B", 50) && FundRow(c, "A", 20)
    requires plan == Plan(Some(FileList(["holdings.csv"])), Some("aggregate"), Some("sum"),
                          Some("Fund"), Some("PL"), None, None, None)
    ensures Rectangular(["Fund", "PL"], [a, b, c])
    ensures Compute(plan, ["Fund", "PL"], [a, b, c]) == Ok(Mapping([(StrVal("A"), 120.0), (StrVal("B"), 50.0)]))
  {
    var columns: seq<string> := ["Fund", "PL"];
    var rows: seq<Row> := [a, b, c];
    assert HasColumn(rows, "Fund") && HasColumn(rows, "PL");
    assert Rectangular(columns, rows);
    assert Truthy(plan.groupBy) && "Fund" in columns && "PL" in columns;
    assert plan.aggregation.GetOr("sum") == "sum";
    ExampleGroups(a, b, c);
  }
}
