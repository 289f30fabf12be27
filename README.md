# Query-plan validator and executor

This project models the core of a question-answering service over two fixed
CSV tables, `trades.csv` and `holdings.csv`. A language model turns a
question into a JSON query plan. The class `QueryExecutor` in `executor.py`
then does two things:

- It validates the plan against closed whitelists of files, operations and
  aggregations, and against the column names of every listed table.
- It runs a fixed pipeline over the first listed table: filter clauses in
  order, then a row count or one of five reductions (optionally grouped),
  then a sort of the resulting mapping by value, then a limit.

Any exception raised while the pipeline runs becomes a failed response that
carries the exception's text.

Modules:

- `Wrappers`: `Option` and `Result`.
- `Frames`: cells (int or string), rows as maps from column name to cell,
  tables as a column list plus rows, and Python's `<` on cells.
- `Plans`: the plan (each JSON key present or absent), filter clauses, the
  whitelists `ALLOWED_FILES`, `ALLOWED_OPERATIONS` and
  `ALLOWED_AGGREGATIONS`, and the validator's rejections with their exact
  messages.
- `Faults`: what can go wrong while a validated plan runs, and the error
  text of each fault.
- `Validation`: `_get_dataframe` and `_validate_plan` as functions, with a
  declarative description of the accepted plans.
- `Filtering`: one filter clause, and the chain of clauses.
- `Aggregation`: grouping, the five reducers, and grouped results.
- `Ordering`: the stable sort of a mapping by value, and Python's `[:k]`.
- `Interpreter`: `execute_plan` as a function of the plan and the two
  tables.
- `Executor`: the class `QueryExecutor`. It has the two table fields and
  the methods `GetDataframe`, `ValidatePlan`, `ExecutePlan` and
  `GetAvailableColumns`. The first three are proved to return exactly what
  `Lookup`, `Validate` and `Execute` give for the executor's tables.
  `GetAvailableColumns` is proved to map exactly the loaded tables' file
  names to their column lists.

Some quirks of the code are kept as written:

- `metric` is not required for `aggregate`.
- An empty `files` list passes validation, and execution then fails with
  `list index out of range`.
- The operations `group_by`, `sort`, `filter` and `limit` pass validation
  but have no execution branch, so `result` is never assigned.
- An unknown filter operator leaves the rows unchanged.
- A clause without an operator compares with `==`.
- A clause without a value compares each cell with `None`. That raises
  nothing: `!=` keeps every row, and the other operators except `in` keep
  none.
- A `limit` of 0 is falsy and means no limit.
- A negative `limit` drops entries from the end, as a Python slice does.

The rules the planner prompt gives for plans (llm_planner.py:59-62) are
stricter than the validator in two places. The model follows the
validator:

- The prompt says an `aggregate` plan must specify a metric
  (llm_planner.py:62); the validator never checks for one.
- The prompt's rules allow only `count` and `aggregate` as operations
  (llm_planner.py:60), while the plan format in the same prompt lists all
  six (llm_planner.py:49), so the prompt contradicts itself; the
  validator's whitelist has six.

Numbers in results are exact: a count or a sum is a real number with an
integer value, and `mean` is the exact quotient. `min`, `max` and `mean`
over no rows give `NaN`.

## Model

| member | source | states |
|---|---|---|
| Plans.FileWhitelistText | executor.py:16-18 | the file whitelist, as it appears in the rejection message, reads `['trades.csv', 'holdings.csv']` |
| Plans.Message | executor.py:68-114 | each rejection's message, with the texts of executor.py, is non-empty, so `(False, message)` never carries an empty message |
| Validation.Lookup | executor.py:52-58 | a file name has a table only if it is whitelisted; `trades.csv` gives the trades table and `holdings.csv` the holdings table |
| Validation.CheckFiles | executor.py:79-86 | the file loop rejects nothing iff every listed file is whitelisted and loaded |
| Validation.FirstFailingFile | executor.py:79-86 | a file rejection is the check of the first listed file that fails, every earlier file having passed |
| Validation.OperationCheck | executor.py:88-98 | accepts iff the operation is whitelisted and, for `aggregate`, an aggregation is present and whitelisted; `metric` plays no part |
| Validation.FilterColumnCheck | executor.py:111-114 | accepts iff every clause that has a `column` names a column of the table; a rejection names such a clause's column and the file |
| Validation.CheckColumns | executor.py:100-114 | the column loop accepts iff, for every listed file, the truthy `group_by`, the truthy `metric` and every clause's column are columns of that file |
| Validation.Validate | executor.py:60-116 | accepts exactly the plans `Acceptable` describes (`ValidateAcceptsExactly`), rejects each for the reason its message states (`RejectionNamesCulprit`), and an accepted plan has a `files` list and an operation, every listed file being loaded |
| Validation.Verdict | executor.py:60-116 | the `(is_valid, error_message)` pair: the flag is true iff `Validate` accepts, and iff the message is empty |
| Validation.ColumnRejectionNamesCulprit | executor.py:100-114 | a column rejection names a listed file and a column of the plan (group_by, metric or a clause's column) that the file lacks |
| Validation.ValidateAcceptsExactly | executor.py:60-116 | the validator accepts a plan iff `files` and `operation` are present, `files` is a list of whitelisted loaded files, the operation and the aggregation are whitelisted, and every named column exists in every listed file |
| Validation.RejectionNamesCulprit | executor.py:68-114 | each rejection happens exactly when its message says: a missing field or a non-list `files` in that order, or a file, operation, aggregation or column that fails its check, named in the message |
| Validation.CheckFilesReadsOnlySchemas | executor.py:79-86 | the file loop gives the same answer for two stores whose tables are loaded alike with the same columns |
| Validation.CheckColumnsReadsOnlySchemas | executor.py:100-114 | the column loop gives the same answer for two stores with the same schemas |
| Validation.ValidationReadsOnlySchemas | executor.py:60-116 | the validator reads no rows: stores with the same schemas get the same verdict |
| Validation.MetricNotRequired | executor.py:93-98 | dropping `metric` from an accepted plan keeps it accepted, even for `aggregate` |
| Validation.EmptyFileListAccepted | executor.py:75-116 | with an empty `files` list, the plan is accepted iff its operation and aggregation pass the whitelists |
| Filtering.OrderFault | executor.py:160-167 | an ordering comparison raises nothing iff every cell of the column can be ordered against the value; a missing value (`None`) never raises |
| Filtering.ClauseFault | executor.py:152-169 | a clause with an unknown operator raises nothing, and a clause with a known operator raises nothing only if it names an existing column; `OrderFault` gives when an ordering raises |
| Filtering.Holds | executor.py:156-169 | the comparison one row's cell must satisfy: `!=` holds exactly where `==` does not for a single or missing value (`NotEqualNegatesEqual`), and `==` keeps exactly the equal cells (`EqualityFilter`) |
| Filtering.NotEqualNegatesEqual | executor.py:156-159 | for a single or a missing value, a cell satisfies `!=` iff it does not satisfy `==` |
| Filtering.NotEqualComplementsEqual | executor.py:156-159 | the rows kept by `==` and those kept by `!=` together are the table's rows, every copy counted |
| Filtering.FilterRows | executor.py:156-169 | keeps exactly the rows whose cell satisfies the comparison, and never more rows than it was given |
| Filtering.FilterRowsCounts | executor.py:156-169 | a row that satisfies the comparison is kept as many times as it occurs; any other row is dropped |
| Filtering.FilterRowsCountAt | executor.py:156-169 | for one row: filtering keeps all its copies if it satisfies the comparison and none otherwise |
| Filtering.ApplyClause | executor.py:151-169 | one pass of the filter loop keeps only rows it was given, and the table stays rectangular |
| Filtering.ApplyFilters | executor.py:150-169 | the filtered table stays rectangular |
| Filtering.FilterRowsInOrder | executor.py:156-169 | the kept rows are a subsequence of the input, in the input's order |
| Filtering.ApplyClauseKeepsPassingRows | executor.py:151-169 | a clause that raises nothing keeps, in order, exactly the rows that pass it, with every copy of a passing row kept |
| Filtering.FiltersKeepPassingRows | executor.py:150-169 | the filter chain keeps, in order, exactly the rows that pass every clause, each as many times as it occurs in the table |
| Filtering.UnknownOperatorIgnored | executor.py:156-169 | a clause whose operator is none of the seven leaves the rows unchanged and raises nothing |
| Filtering.MissingOperatorMeansEquality | executor.py:153 | a clause without an operator acts as the same clause with `==` |
| Filtering.EqualityFilter | executor.py:156-157 | `==` on an existing column never raises and keeps exactly the rows whose cell equals the value, every copy of each |
| Filtering.FilterRowsKeepsAll | executor.py:156-169 | a comparison every row satisfies keeps the rows unchanged |
| Filtering.MissingValueComparesFalse | executor.py:154-167 | a clause without `value` raises nothing; `!=` keeps all rows and `==`, `>`, `<`, `>=`, `<=` keep none |
| Aggregation.KeysOf | executor.py:176 | the group keys are distinct, and a value is a key iff some row has it in the grouping column |
| Aggregation.Members | executor.py:185 | a group holds exactly the rows whose grouping cell is the key |
| Aggregation.MembersCounts | executor.py:185 | a group holds each row with the key as many times as it occurs in the table |
| Aggregation.MetricInts | executor.py:199 | the metric values are the rows' metric cells, one per row, in order |
| Aggregation.Min | executor.py:203 | the minimum is one of the values and no value is smaller |
| Aggregation.Max | executor.py:205 | the maximum is one of the values and no value is larger |
| Aggregation.Reduce | executor.py:197-207 | the ungrouped `count` is the number of rows, and the ungrouped `sum` of an int column is the sum of its values |
| Aggregation.GroupedReduce | executor.py:184-196 | succeeds iff the aggregation is whitelisted and, unless it is `count`, the metric column holds only ints; a failure is the unbound `result` or the string-column fault; a success has one entry per key (`OneEntryPerKey`), each the reducer of that key's group (`GroupsAt`) |
| Aggregation.GroupedCount | executor.py:176 | one entry per group key, in the keys' order, each the key's group size (`Sizes`, `CountEqualsSize`), adding up to the row count (`GroupedCountTotal`) |
| Aggregation.Groups | executor.py:184-196 | the grouped result has one entry per key, in the keys' order |
| Aggregation.Sizes | executor.py:176 | the group sizes have one entry per key, in the keys' order |
| Aggregation.GroupedCountTotal | executor.py:176 | the grouped row counts add up to the number of rows |
| Aggregation.GroupedSumTotal | executor.py:187-188 | the grouped sums add up to the ungrouped `sum` of the same rows |
| Aggregation.GroupsAt | executor.py:184-196 | the i-th entry of a grouped result is the reducer applied to the i-th key's non-empty group |
| Aggregation.OneEntryPerKey | executor.py:184-196 | a grouped reduction has exactly one entry per distinct value of the grouping column |
| Aggregation.GroupedCountKeys | executor.py:176 | a grouped count has exactly one entry per distinct value of the grouping column |
| Aggregation.ExtremeOfGroup | executor.py:191-194 | a group's `min` (`max`) is the metric of one of its rows and no row's metric is below (above) it |
| Aggregation.GroupedMinMax | executor.py:191-194 | each entry of a grouped `min` (`max`) is attained by a row of that key and bounds every row of that key |
| Aggregation.CountEqualsSize | executor.py:195-196 | with no missing values, a grouped `count` of the metric equals the group sizes |
| Ordering.Insert | executor.py:214 | inserting one entry adds exactly that entry |
| Ordering.SortByValue | executor.py:214 | the sorted mapping is a permutation of its entries |
| Ordering.InsertSorted | executor.py:214 | inserting into a sorted mapping keeps it sorted |
| Ordering.InsertStable | executor.py:214 | inserting keeps the order of the entries that share a value |
| Ordering.SortSortedAndStable | executor.py:209-214 | the sort orders entries by value (non-increasing for `desc`, non-decreasing otherwise), and entries with equal values keep their original order |
| Ordering.SortKeepsKeysDistinct | executor.py:214 | sorting keeps exactly the same keys, each once |
| Ordering.Take | executor.py:221 | the limit keeps a prefix of the entries |
| Ordering.TakeKeepsPrefix | executor.py:219-221 | `[:k]` keeps the first min(k, n) entries for k ≥ 0 and drops the last -k for k < 0, in order, keys staying distinct |
| Interpreter.Compute | executor.py:171-207 | a mapping result has distinct keys |
| Interpreter.Finish | executor.py:209-223 | sort and limit leave a scalar alone and keep a mapping a mapping, with no more entries and only entries it had; `SortThenLimit` gives the exact result |
| Interpreter.Run | executor.py:137-230 | the `try` block succeeds only if `files` is non-empty and the first file's table is loaded, and a mapping result has distinct keys |
| Interpreter.Execute | executor.py:118-237 | the response succeeds iff it carries no error; a success carries a result and the plan and follows an accepted plan; a failure carries a non-empty error and no result; `ExecutePlan` is proved to return it |
| Interpreter.Filtered | executor.py:149-169 | the filtered rows form a rectangular table with the table's columns |
| Interpreter.InvalidPlanRejected | executor.py:128-135 | an invalid plan fails with the validator's message and no result |
| Interpreter.InvalidPlanTouchesNoData | executor.py:128-135 | the response to an invalid plan does not depend on any table's rows |
| Interpreter.OnlyFirstTableQueried | executor.py:137-140 | only the first listed table is queried: the others matter only through their columns |
| Interpreter.EmptyFileListFails | executor.py:137-139 | an accepted plan with no files fails with `list index out of range` |
| Interpreter.MissingMetricFails | executor.py:180-207 | an accepted `aggregate` plan without `metric` never succeeds |
| Interpreter.OperationWithoutBranchFails | executor.py:171-237 | an accepted `group_by`, `sort`, `filter` or `limit` plan never succeeds; if its filters raise nothing, it fails because `result` was never assigned |
| Interpreter.PrefixKeeps | executor.py:221 | a prefix of a sorted mapping with distinct keys is still sorted, has distinct keys, and holds only entries of the mapping |
| Interpreter.SortStep | executor.py:209-214 | a truthy `sort` permutes the mapping into value order, keeping keys distinct |
| Interpreter.SortThenLimit | executor.py:209-223 | after sort and limit, the mapping is a prefix of the sorted mapping, ordered by value when sorted, with distinct keys; it has min(k, n) entries for a positive limit k, and is the whole sorted mapping when there is no limit |
| Interpreter.AggregationDefaultsToSum | executor.py:182 | `aggregate` without `aggregation` reduces as `sum`, though the validator never lets such a plan through |
| Interpreter.CountAnswers | executor.py:174-178 | `count` is the number of filtered rows; grouped, its counts add up to that number |
| Interpreter.GroupedSumAddsUp | executor.py:184-199 | a grouped `sum` adds up to the ungrouped `sum` of the same filtered rows |
| Interpreter.SuccessfulMappingHasDistinctKeys | executor.py:225-230 | a successful response carries a result and no error, and a mapping result has one entry per key |
| Faults.Text | executor.py:232-237 | the error text of each fault, as `str(e)` gives it (and as the `not loaded` early return at executor.py:142-147 writes it), is non-empty |
| Interpreter.ExampleKeys | executor.py:176 | the funds A, B, A group into the keys A and B, in that order |
| Interpreter.ExampleMembers | executor.py:185 | fund A's group holds the first and third rows, fund B's the second |
| Interpreter.ExampleFundMembers | executor.py:185 | one fund's group, found by comparing each of the three rows with the fund |
| Interpreter.ExampleSums | executor.py:188 | fund A's profits 100 and 20 sum to 120, fund B's to 50 |
| Interpreter.ExampleGroupSums | executor.py:184-188 | the sums of the groups of A and B, in that order, are 120 and 50 |
| Interpreter.ExampleGroups | executor.py:184-188 | profit summed by fund over those three rows gives A: 120, B: 50 |
| Interpreter.ExampleValid | executor.py:60-116 | the example plan over a table with columns Fund and PL passes validation |
| Interpreter.ExampleCompute | executor.py:184-188 | the aggregate branch of the example plan gives A: 120, B: 50 |
| Interpreter.FundTotals | executor.py:118-230 | the plan "sum PL by Fund over holdings.csv" passes validation and succeeds with A: 120, B: 50 |
| Executor.QueryExecutor.constructor | executor.py:20-30 | the executor holds the two given tables |
| Executor.QueryExecutor.GetDataframe | executor.py:52-58 | returns the table the file name stands for; a name outside the whitelist has none |
| Executor.QueryExecutor.ValidatePlan | executor.py:60-116 | returns `(True, "")` iff the plan is acceptable, otherwise `False` with the message of the first failing check |
| Executor.QueryExecutor.FindMissingColumn | executor.py:100-114 | the column loop, with the inner filter-clause loop, returns the rejection `CheckColumns` gives: the first listed file lacking a column the plan names |
| Executor.QueryExecutor.ExecutePlan | executor.py:118-237 | its filter loop, branches, sort and limit produce exactly the response the pipeline specifies, failures included |
| Executor.QueryExecutor.GetAvailableColumns | executor.py:239-246 | maps exactly the loaded tables' file names to their column lists |

## Left out

- Loading the CSV files (`_load_data`, executor.py:32-50) is not modelled. It is file I/O. The constructor receives the two tables, or `None` for a missing one.
- `mean` is an exact quotient of rationals, not a floating-point division. Sums, counts, minima and maxima of ints are exact too, so int64 overflow is not modelled.
- Cells are ints or strings and never missing. Pandas NaN handling, dtype inference and float columns are not modelled, so `size()` and `count()` always agree. A table may also mix int and string cells in one column, which pandas' CSV reader never produces (a column with any text is read as all strings); `Filtering.OrderFault` raises per row, so on such a column it may raise where pandas, comparing a string column with an int, would raise for the whole column or not at all.
- Aggregation.GroupedReduce: keys come in order of first appearance, whereas pandas sorts group keys. Only "one entry per distinct key" is promised about the order.
- Aggregation.GroupedCount: the same holds for the grouped `count` operation. So with a `limit` and no `sort`, the model may keep different groups than pandas does.
- Aggregation.Reduce: `sum`, `mean`, `min` or `max` over a column holding a string becomes one `NonNumeric` fault. Pandas would concatenate or compare the strings, or raise a dtype-specific error.
- Aggregation.GroupedReduce: the same `NonNumeric` fault replaces pandas' grouped `sum`, `mean`, `min` and `max` over a string column.
- Filtering.ClauseFault: comparing a column with a list by `==`, `!=` or an ordering is always a fault. Pandas compares element-wise when the lengths match.
- Filtering.ClauseFault: an ordering between an int cell and a string value fails on the first such row. On an empty table pandas' dtype checks may still raise; that is not modelled.
- The error texts of pandas-raised faults are representative, not pandas' exact wording. The validator's messages and the `not loaded` message follow the code. `list index out of range` is Python's own text for that `IndexError`. The unassigned-`result` text is CPython 3.11's wording for that `UnboundLocalError`; CPython 3.10 and earlier say "local variable 'result' referenced before assignment".
- The `pd.Series` branches of sort and limit (executor.py:215-216, 222-223) are not modelled. They are unreachable, because every mapping result has already been converted with `to_dict()`.
- Plan fields hold strings, an int limit, or a list of clauses. Values of other JSON types are not modelled: a `null` field, a non-string file name, a non-list `filters`, or a `sort` that is not a string.
- Python dict key order in `get_available_columns` is not modelled; the result is a map.
- HTTP endpoints (api.py), calls to the language model (llm_planner.py, llm_explainer.py), the chatbot glue (chatbot.py) and constants (config.py) are not part of this model. They are network and I/O plumbing around the executor.
