# rspark in Dafny

rspark is a small distributed SQL engine: a planner turns SQL into logical plans, a local executor
evaluates them over row batches, a master fans jobs out to polling workers, and a pipeline runner
executes declared flows in dependency order. This project models the decision-making core of these
components and proves properties of it for all inputs and all runs.

`dafny verify dfyconfig.toml` checks everything.

## How the model is laid out

| file | content |
|---|---|
| `Results`, `Values`, `Orders`, `Records`, `Subsequences` | values, comparisons, rows, batches, and the few generic facts about sequences they need |
| `Expressions`, `Operations`, `Comparisons`, `Terms`, `Like`, `Desugaring` | expression evaluation, what operators, comparisons, casts, names and inferred types mean, the LIKE compiler, COALESCE / IN / BETWEEN |
| `Plans`, `Planner`, `Shapes`, `NaturalJoins`, `Having`, `HavingFailures`, `SqlNulls` | logical plans, the planner, and what FROM, HAVING and WHERE mean |
| `Queries`, `GroupedQueries` | what a whole planned SELECT and query returns, and when it succeeds |
| `Operators`, `Distincts`, `Sorting`, `SortKeys`, `Aggregating`, `Groups`, `Extremes`, `Sums`, `Executor`, `Nodes`, `TopRows` | the physical operators, the executor that overwrites one batch slot, and what each executed node returns |
| `ArrowBatches` | the row/column boundary |
| `Partitioner`, `Scans`, `Cluster`, `ClusterLemmas`, `ClusterSteps`, `ClusterRuns`, `Submissions`, `Masters`, `Workers` | the scheduling protocol: partition labels, steps on one value, the invariant, whole runs, what a submission and a report leave behind, the master as a class, the worker loops |
| `Layers`, `Pipelines` | layering of the flow graph, building it, running it |

Loops over mutable state are methods with invariants and are proved equal to a specification
function; `BatchSlot`, `ClusterState` and `Master` are classes. The theorems are stated about those
specification functions, so they hold of what the methods compute.

Modelling decisions:

- Floats are NaN, the two infinities or a real number. Rounding, printing and parsing are fields of
  the `Host` record, so theorems hold for any rounding; where conversions to Float64 must be monotone,
  as IEEE conversions are, the hypothesis `Extremes.Monotone` says so.
- The regular-expression engine answers for itself (`Host.regex`) on texts outside the subset that LIKE
  patterns with clean escapes compile to, such as `\d`.
- Integers are unbounded; 64-bit wrap-around of the arithmetic operators is written out (`WrapI64`).
- Where the source iterates over a hash map (zero-degree nodes, tasks of a job), the model picks in an
  arbitrary order. Which failure message a job gets depends on that order and is the parameter `pick`.
- UUIDs are numbers drawn from a counter.
- What the platform supplies is a parameter: data sources (`Env.scan`), the catalog, the outcome of
  running one flow (which may depend on the flows attempted before it), the outcome of planning a
  submitted statement.
- Each `Master` method is one atomic step. Logs of submitted, handed-out and reported tasks are ghost.
- `petgraph::toposort` is used only for "has a cycle or not" and, if so, for a node on a cycle; that
  choice of node is the parameter `culprit`.
- `sort_by` is the library's (`Host.sortBy`). What it promises is the hypothesis `Sorting.LibraryIsStable`:
  a permutation whenever it returns, and a stable sorted one wherever the comparator is a total preorder on
  the keys at hand. That determines the result there (`Sorting.LibrarySortIs`); elsewhere no order is claimed.
  `SortKeys` says exactly when the comparator of a column is a total preorder.

Where the code differs from what its comments, its documentation or SQL say, the model follows the code:

- Every binary operator is null-strict, AND and OR included (crates/rspark-core/src/expr.rs:264-266). WHERE keeps
  what SQL keeps except rows on which SQL finds the condition true although an operand is null
  (`SqlNulls.WhereIsSqlExactly`; `SqlNulls.TrueOrNullIsDropped` is an instance).
- NULL joins NULL, because join columns are compared structurally, and the ON text is dropped: a FROM list
  is a natural join (crates/rspark-exec/src/operators.rs:539, crates/rspark-sql/src/expr_builder.rs:393-405). Its
  rows are SQL's exactly when no consistent tuple is null under a shared column (`SqlNulls.JoinIsSqlExactly`).
- ORDER BY treats values that do not compare as equal, so on some key columns its comparator is no preorder and
  the sort promises no order: with monotone conversions exactly when values that tie compare differently with a
  third one (`SortKeys.ChainingIffTiesAgree`; `SortKeys.MixedKeysAreNoPreorder` is an instance).
- GROUP BY compares rendered values, so a null and the string 'null' fall into one group. Its groups are classes
  of equal values exactly when rows with one key have one value (`Groups.GroupsAreClassesExactly`).
- LIKE wildcards do not cross a newline. `Like.NewlineDefeatsPercent` shows it, `Like.LikeIsExactly` says
  precisely which targets match.
- DISTINCT compares rendered rows joined by `|`. `Distincts.SeparatorCollision` shows two rows
  collapsing, `Distincts.DistinctExactly` says precisely when DISTINCT is row deduplication.
- MIN and MAX keep an incomparable first argument (`Extremes.MinNeedsOneKind`). `Extremes.MinExactly` and
  `Extremes.MaxExactly` say precisely when they are extremes, on every list in which arguments that compare
  with a third one compare with each other; on the lists left, which mix integers, Float32 and Float64, the
  outcome depends on the order of the arguments (`Extremes.ExtremeDependsOnOrder`).
- `+`, `-` and `*` truncate Float64 operands to integers, because every float casts to one: `1.5 + 1.5` is 2
  (`Operations.FloatSumTruncates`). Only text that is no integer reaches the float arithmetic
  (`Operations.FloatArithmeticExactly`). The results are declared Float64 all the same
  (`Terms.ArithmeticTypeExactly`), and columns, MIN and MAX are declared String whatever they hold.
- A SELECT without FROM returns no row (`Queries.SelectWithoutFrom`), and aggregates over no rows return no row, so
  COUNT of an empty table is not 0 (`Queries.NothingGroupsToNothing`).
- UNION keeps duplicates (`Queries.UnionRows`). DISTINCT is ignored in a grouped SELECT, and HAVING in one without
  grouping (`Queries.GroupedSelectRows`, `Queries.SelectRows`).
- A UNION whose branches have different output schemas is planned and then fails at run time, on empty
  tables too (`Shapes.PlannedQueryIsSound` and `Shapes.PlannedQueryFails` together are the exact condition;
  `Shapes.UnionOfTwoNamesFails` is an instance).
- HAVING fails on every non-empty input if an aggregate stands below NOT, IS NULL or IS NOT NULL, or if a
  column or unselected aggregate has no output column of its name (`HavingFailures.HavingExactly`,
  `HavingFailures.PlannedHavingFails`). Beside an aggregate, arithmetic and LIKE on non-null operands are errors
  (`HavingFailures.ChokingFails`). A column in HAVING reads whichever SELECT item has that output name
  (`HavingFailures.ColumnReadsOutputName`). `Having.HavingMeaning` is the verdict on every predicate.
- Every task of a job executes the whole statement, so the row count of a job with several tasks is a
  multiple of the statement's (`ClusterRuns.RowsCountOncePerTask`).
- The columnar boundary is documented as lossless for all value variants; it coerces values to the
  declared column types, turns Date and Timestamp columns into String columns, refuses batches with rows
  that mix Null-typed and other columns, and drops the rows of a batch whose columns all have type Null
  (`ArrowBatches.RoundTripIsIdentity` has the exact condition over all batches, `ArrowBatches.RoundTripMeaning`
  the outcome for each).
- If a task is reported more than once, a job can stay failed with no failed task
  (`ClusterRuns.RepeatedReportLeavesJobFailed`; `ClusterRuns.FailedAgreesExactly` has the exact condition).
- With duplicate flow names the runner runs exactly the first flow of each name, so it runs all flows exactly
  when names are unique (`Pipelines.RunAttemptsFirsts`), at the place in the order that the dependencies of all
  flows of that name require (`Pipelines.Run`).

## Model

| member | source | states |
|---|---|---|
| `Executor.Execute` | crates/rspark-exec/src/executor.rs:149-158 | for every plan tree, every scan function and every host, executing by in-place overwrites returns exactly the plan's compositional denotation, the error included; for Sort that is whatever order the library sort gives, see `Sorting.LibrarySortIs` |
| `Executor.MaterializeInput` | crates/rspark-exec/src/executor.rs:174-194 | a scan is seeded with its source's rows, `Empty` with the empty batch, every other node with the denotation of its first child |
| `Executor.ApplyTree` | crates/rspark-exec/src/executor.rs:197-311 | from the seed, the slot ends up holding the denotation of the node, or the reported error is the denotation's error |
| `Executor.ApplyJoin` | crates/rspark-exec/src/executor.rs:264-281 | the Join arm reaches the denotation although it moves the slot's rows and executes the right side separately |
| `Executor.ApplyUnion` | crates/rspark-exec/src/executor.rs:282-291 | the Union arm reaches the denotation although the first input is executed twice |
| `Executor.UnionConcatenates` | crates/rspark-exec/src/executor.rs:282-291 | a union succeeds if and only if every input does with the union's schema, and its rows are the inputs' rows in order |
| `Nodes.ScanNode` | crates/rspark-exec/src/executor.rs:174-208 | a scan asks its source for the plan's path, kind and schema and returns those rows |
| `Nodes.FilterNode` | crates/rspark-exec/src/executor.rs:231-242 | an executed filter returns, in order, exactly its input's rows on which the predicate is true |
| `Nodes.ProjectNodeIs` | crates/rspark-exec/src/executor.rs:214-230 | an executed projection returns one row per input row, each made of the cells of the items one after the other |
| `Nodes.LimitNode` | crates/rspark-exec/src/executor.rs:257-263 | an executed limit returns the first n rows of its input |
| `Nodes.JoinNodeRows` | crates/rspark-exec/src/executor.rs:264-281 | an executed join goes over the left rows and for each over the right rows: a joined row per agreeing pair, the left row with nulls if a left outer join finds none, and no success for right and full joins |
| `Nodes.PairAgreesExactly` | crates/rspark-exec/src/operators.rs:532-544 | two rows agree if and only if, for every pair whose columns both sides have, the values are equal |
| `Nodes.DistinctNode` | crates/rspark-exec/src/executor.rs:292-308 | an executed DISTINCT returns the first occurrence of each key: no key twice, and every key of the input |
| `Nodes.DistinctNodeOnPlainColumns` | crates/rspark-exec/src/executor.rs:292-308 | on integer and boolean columns with nulls that is the input without its repeated rows |
| `Nodes.DistinctNodeTwice` | crates/rspark-exec/src/executor.rs:292-308 | a second DISTINCT node changes nothing |
| `Operators.FilterRecords` | crates/rspark-exec/src/executor.rs:231-242 | the filter loop computes the recursive filter with its first error |
| `Operators.FilterKeepsTrueRows` | crates/rspark-exec/src/operators.rs:151-173 | a successful filter is the subsequence of exactly the rows whose predicate is true |
| `Operators.ProjectRecord` | crates/rspark-exec/src/operators.rs:260-293 | the projection loop with Star expansion computes the projected row, validated against the output schema |
| `Operators.ProjectRecords` | crates/rspark-exec/src/executor.rs:214-230 | the projection loop over the rows computes the projected rows, stopping at the first error |
| `Operators.ProjectRowsPointwise` | crates/rspark-exec/src/executor.rs:214-230 | a successful projection has one output row per input row, in order, each the projection of its input row |
| `Operators.AgreeOnPairs` | crates/rspark-exec/src/operators.rs:532-544 | the early-exit loop decides agreement on all join pairs |
| `Operators.JoinBatches` | crates/rspark-exec/src/operators.rs:512-572 | the nested loops compute the ordered join: left rows in order, each with its matches in order, padded for unmatched left-outer rows, an error for right and full joins |
| `Operators.DistinctRecords` | crates/rspark-exec/src/executor.rs:292-308 | the key-set loop keeps the first occurrence of each key |
| `Distincts.DistinctIsFirsts` | crates/rspark-exec/src/executor.rs:292-308 | the output is the subsequence of rows whose key occurs at no earlier position |
| `Distincts.DistinctIdempotent` | crates/rspark-exec/src/executor.rs:292-308 | running DISTINCT twice changes nothing |
| `Distincts.DistinctExactly` | crates/rspark-exec/src/executor.rs:292-308 | DISTINCT is true row deduplication if and only if no two different rows have one key |
| `Distincts.DistinctIsDeduplication` | crates/rspark-core/src/value.rs:35-45 | which is so when rendering is injective per column and no rendering contains the separator |
| `Distincts.DistinctOnPlainColumns` | crates/rspark-core/src/value.rs:35-45 | on integer and boolean columns with nulls DISTINCT is row deduplication outright |
| `Distincts.SeparatorCollision` | crates/rspark-exec/src/executor.rs:292-308 | two different rows that collapse into one |
| `Values.IntToStringInjective` | crates/rspark-core/src/value.rs:35-45 | integer rendering is injective |
| `Sorting.SortBatch` | crates/rspark-exec/src/operators.rs:464-500 | decorating, calling the library sort and looking rows up again computes the sorted rows, or the first key error |
| `Sorting.LibrarySortIs` | crates/rspark-exec/src/operators.rs:475-491 | a library sort that is stable on total preorders gives exactly the reference order wherever the comparator is one |
| `SortKeys.OneColumn` | crates/rspark-exec/src/operators.rs:475-491 | sorting by one column, in either direction, is sorting by a total preorder if and only if the comparator of its values chains |
| `SortKeys.ChainingIffTiesAgree` | crates/rspark-core/src/value.rs:87-128 | for all values, with monotone conversions: it chains if and only if values that tie compare alike with every other value |
| `SortKeys.ChainingExactly` | crates/rspark-core/src/value.rs:87-128 | for lists in which two values that compare with a third compare with each other: it chains if and only if all values tie, or all compare and no Float64 equals two different integers |
| `SortKeys.ChainingWithTypesApart` | crates/rspark-core/src/value.rs:87-128 | on every host, where different types do not compare: it chains if and only if the values are of one type without NaN, or no two compare unequal |
| `SortKeys.MixedKeysAreNoPreorder` | crates/rspark-core/src/value.rs:87-128 | on 2, 'a' and 1 it does not chain |
| `Sorting.CompareKeysReverses` | crates/rspark-exec/src/operators.rs:475-491 | on all keys whatsoever, comparing the other way round gives the reverse |
| `Sorting.ColumnsMakePreorder` | crates/rspark-exec/src/operators.rs:475-491 | the lexicographic comparator with per-key direction is a total preorder if the comparator of each column chains |
| `Sorting.TypedKeysArePreorder` | crates/rspark-core/src/value.rs:87-128 | so it is on columns of one type without NaN and on columns that mix both integer widths, nulls included |
| `Sorting.StableSortSorts` | crates/rspark-exec/src/operators.rs:464-500 | wherever the comparator is a total preorder the result is sorted and stable |
| `Sorting.StableSortUnique` | crates/rspark-exec/src/operators.rs:464-500 | and every stably sorted arrangement of the same rows is this one |
| `Sorting.SortPermutesRows` | crates/rspark-exec/src/operators.rs:464-500 | sorting permutes the rows, whatever the keys |
| `Sorting.NullPlacement` | crates/rspark-core/src/value.rs:87-128 | nulls of the leading key come first ascending and last descending |
| `Comparisons.CompareStringsIs` | crates/rspark-core/src/value.rs:101 | a string compares as less if and only if it is a proper prefix or has the smaller character at the first difference; equal if and only if it is the same |
| `Comparisons.TryCmpExactly` | crates/rspark-core/src/value.rs:87-128 | which pairs of values compare, and that one is less if and only if it is null, false, the smaller number or the smaller string |
| `Comparisons.CompareKeysIs` | crates/rspark-exec/src/operators.rs:475-491 | comparing key lists: the first key on which one value is smaller decides, in that key's direction |
| `Comparisons.SortsAfterExactly` | crates/rspark-exec/src/operators.rs:464-500 | so a row sorts after another if and only if, on the first ORDER BY expression that tells them apart, its value is larger, or smaller for a descending key |
| `Sorting.OrderByLimit` | crates/rspark-exec/src/operators.rs:464-506 | on rows whose keys evaluate and are totally preordered, sorting and limiting keeps the first n rows of a permutation in which no row sorts after a later one |
| `Sorting.TypedRowsAreSortable` | crates/rspark-exec/src/operators.rs:464-500 | rows with typed key columns are such rows |
| `TopRows.OrderByLimitKeepsTop` | crates/rspark-exec/src/executor.rs:252-263 | on sortable rows an executed ORDER BY with LIMIT n returns, under the input's schema, the first n rows of a rearrangement of the input in which no row ranks after a later one by its ORDER BY values |
| `TopRows.OrderByColumn` | crates/rspark-exec/src/executor.rs:252-263 | over a column of one type, ascending, no returned row stands before one with a smaller value, and descending before one with a larger; nulls are smallest |
| `Aggregating.UpdateAccumulators` | crates/rspark-exec/src/operators.rs:393-441 | feeding one row updates each accumulator with its own argument, or reports the first argument error |
| `Aggregating.Accumulate` | crates/rspark-exec/src/operators.rs:304-347 | the one-pass map holds, for every key seen, the fold of every aggregate over that key's rows in input order |
| `Aggregating.AggregateRecords` | crates/rspark-exec/src/operators.rs:304-363 | the whole operator computes one row per key in key order, or the first error |
| `Aggregating.OrderedKeysSpec` | crates/rspark-exec/src/operators.rs:304-363 | output keys are strictly increasing and exactly the rendered keys of the input |
| `Aggregating.AccumulatorsAt` | crates/rspark-exec/src/operators.rs:383-441 | each accumulator is the left fold of its own function over its own argument values |
| `Aggregating.CountCounts` | crates/rspark-exec/src/operators.rs:393-461 | COUNT is the number of non-null arguments |
| `Sums.CountIsNonNull` | crates/rspark-exec/src/operators.rs:443-461 | the finished COUNT is the number of non-null arguments |
| `Sums.SumIsTotal` | crates/rspark-exec/src/operators.rs:405-409 | SUM is the left-to-right host total, from zero, of the arguments that cast to a number |
| `Sums.AvgIsQuotient` | crates/rspark-exec/src/operators.rs:410-415 | AVG is null if and only if no argument casts, and otherwise that total divided by the number of arguments that cast |
| `Sums.NonNumbersAreIgnored` | crates/rspark-exec/src/operators.rs:405-415 | an argument that does not cast changes neither |
| `Sums.SumAndMean` | crates/rspark-exec/src/operators.rs:405-461 | on hosts whose addition is exact, SUM of finite numbers is their real sum and AVG the quotient of that by their number |
| `Sums.SumOfIntegers` | crates/rspark-exec/src/operators.rs:405-461 | so of an integer column with nulls, SUM is the sum of its integers and AVG their mean, null if there are none |
| `Extremes.MinExactly` | crates/rspark-exec/src/operators.rs:416-427 | MIN is a non-null argument that compares with and exceeds no other (absent only if all are null) if and only if all non-null arguments compare with each other, mixed types and NaN included; for monotone conversions and lists in which two arguments that compare with a third compare with each other |
| `Extremes.MaxExactly` | crates/rspark-exec/src/operators.rs:428-439 | the same for MAX |
| `Extremes.ExtremesExactly` | crates/rspark-exec/src/operators.rs:416-439 | on every host, where different types do not compare: MIN and MAX are extremes if and only if the non-null arguments are of one type and none is NaN |
| `Extremes.ExtremesOfOneKind` | crates/rspark-exec/src/operators.rs:416-439 | so they are on arguments of one type without NaN |
| `Comparisons.MinMaxOfColumn` | crates/rspark-exec/src/operators.rs:416-461 | and there the finished MIN is the smallest value, the finished MAX the largest, both null if and only if all arguments are |
| `Extremes.DetoursNeedThreeTypes` | crates/rspark-core/src/value.rs:87-128 | only lists with an integer, a Float32 and a Float64 have arguments that compare with a third but not with each other |
| `Extremes.ExtremeDependsOnOrder` | crates/rspark-exec/src/operators.rs:416-427 | on such a list MIN is a least argument in one order and not in another |
| `Extremes.MinNeedsOneKind` | crates/rspark-exec/src/operators.rs:416-427 | an incomparable first argument is kept, and is no least argument |
| `Aggregating.GroupsPartition` | crates/rspark-exec/src/operators.rs:304-363 | the groups partition the input rows |
| `Groups.GroupsAreClassesExactly` | crates/rspark-exec/src/operators.rs:304-363 | every group is the class of rows with its group values if and only if rows with one rendered key have equal values |
| `Groups.PlainGroupsAreClasses` | crates/rspark-core/src/value.rs:35-45 | so it is on integer and boolean group columns with nulls |
| `Groups.NullGroupsWithItsName` | crates/rspark-core/src/value.rs:35-45 | a null and the string 'null' are one group |
| `Aggregating.CountStarConserved` | crates/rspark-exec/src/operators.rs:304-461 | the COUNT(*) column of the output sums to the number of input rows |
| `Planner.FindJoinPairs` | crates/rspark-sql/src/planner.rs:245-253 | the loop finds one pair per left column that the right side has |
| `Planner.SharedPairsExact` | crates/rspark-sql/src/planner.rs:245-253 | the pairs are exactly the column names both sides have |
| `Planner.BuildFromClause` | crates/rspark-sql/src/planner.rs:183-213 | folding the tables builds the left-deep join plan, or the first catalog error |
| `Plans.BuildProjectSchema` | crates/rspark-sql/src/plan.rs:164-181 | the loop builds the projection schema with Star expanded to the input fields |
| `Plans.BuildJoinSchema` | crates/rspark-sql/src/plan.rs:194-202 | the loop builds the left fields followed by the right fields that are no join column |
| `NaturalJoins.FromIsNaturalJoin` | crates/rspark-sql/src/planner.rs:183-253 | executing the plan of any FROM list over duplicate-free tables yields exactly one row per tuple of rows in which tables sharing a column agree on it, in lexicographic order of row numbers |
| `NaturalJoins.AllTuplesComplete` | crates/rspark-exec/src/operators.rs:512-572 | every tuple of row numbers is considered |
| `NaturalJoins.AllTuplesIncreasing` | crates/rspark-exec/src/operators.rs:512-572 | in strictly increasing lexicographic order, so none twice |
| `NaturalJoins.MergedSchemaAre` | crates/rspark-sql/src/plan.rs:194-202 | the output schema is duplicate-free and has exactly the tables' columns |
| `NaturalJoins.MergedRowReads` | crates/rspark-exec/src/operators.rs:512-572 | under each column an output row shows the value of the first table that has the column |
| `NaturalJoins.NaturalJoinValid` | crates/rspark-core/src/record.rs:41-81 | the rows fit the output schema |
| `Queries.SelectRows` | crates/rspark-sql/src/planner.rs:108-181 | a successful SELECT without grouping over any tables returns, in order, one row per row of their natural join on which WHERE is true, made of the items' cells; with DISTINCT, only the first of each key |
| `Queries.SelectSucceeds` | crates/rspark-sql/src/planner.rs:108-181 | and it succeeds if and only if WHERE has a truth value on every row of the join and every item has a value on every row kept |
| `Queries.ConditionIs` | crates/rspark-exec/src/operators.rs:151-173 | a condition without aggregates is true exactly where it evaluates to true; false and null drop the row |
| `Queries.SelectWithoutFrom` | crates/rspark-sql/src/planner.rs:183-190 | without FROM it returns no row |
| `Queries.GroupedSelectRows` | crates/rspark-sql/src/planner.rs:108-158 | a successful grouped SELECT returns one row per rendered key of the rows that WHERE keeps, in increasing key order: aggregates over all rows with the key, other items on the first of them; HAVING keeps exactly the groups on which its condition is true |
| `GroupedQueries.GroupedSelectSucceeds` | crates/rspark-exec/src/operators.rs:304-363 | and it succeeds if and only if WHERE has a truth value on every row of the join, group expressions and aggregate arguments have values on every row kept, and items and HAVING have one for every group |
| `Queries.NothingGroupsToNothing` | crates/rspark-exec/src/operators.rs:304-363 | grouping no rows returns no row |
| `Queries.UnionRows` | crates/rspark-sql/src/planner.rs:87-103 | a successful UNION returns the left rows followed by the right rows |
| `Queries.QueryRows` | crates/rspark-sql/src/planner.rs:48-81 | a successful query returns its body's rows rearranged so that no row ranks after a later one, as they come without ORDER BY, and cut off at LIMIT |
| `Queries.FailingBodyFails` | crates/rspark-sql/src/planner.rs:48-81 | a query whose body fails, fails with the body's error |
| `SqlNulls.JoinIsSqlExactly` | crates/rspark-exec/src/operators.rs:531-545 | the natural join has the rows of SQL's (section 7.5 of ISO/IEC 9075:1992) if and only if no consistent tuple is null under a column that two tables share |
| `SqlNulls.NullJoinsNull` | crates/rspark-exec/src/operators.rs:539 | two one-column tables with a null join on it |
| `SqlNulls.NullStrictExactly` | crates/rspark-core/src/expr.rs:246-311 | a condition is null if and only if an operand below its AND, OR and NOT is, and otherwise has SQL's truth value (section 8.12 of ISO/IEC 9075:1992) |
| `SqlNulls.WhereIsSqlExactly` | crates/rspark-exec/src/executor.rs:231-242 | WHERE keeps the rows that SQL keeps if and only if no row has a null operand in a condition that SQL finds true |
| `SqlNulls.TrueOrNullIsDropped` | crates/rspark-core/src/expr.rs:264-266 | `1 = 1 OR NULL = 1` is true in SQL and drops every row here |
| `Shapes.ShapeSound` | crates/rspark-exec/src/executor.rs:197-311 | if sources that return rows return them in the requested schema, a plan whose stored schemas come from the schema builders leaves a valid batch with its stored schema at every node, or fails for a reason other than shape, or with an error that a scan got from its source |
| `Shapes.PlanSelectShape` | crates/rspark-sql/src/planner.rs:108-181 | every plan of `plan_select` over duplicate-free tables is such a plan |
| `Shapes.PlannedSelectIsSound` | crates/rspark-sql/src/planner.rs:108-181 | so, over such sources, no shape check of the executor ever fails on a planned SELECT, Star expansion and the single-Star path included |
| `Shapes.BodyShape` | crates/rspark-sql/src/planner.rs:83-106 | a planned query body is well shaped if and only if the branches of every UNION in it have equal output schemas |
| `Shapes.PlannedQueryIsSound` | crates/rspark-sql/src/planner.rs:48-106 | the same of a whole query, and then it is sound: ORDER BY, LIMIT, nested queries and nested UNIONs included |
| `Shapes.PlannedQueryFails` | crates/rspark-exec/src/executor.rs:282-291 | a planned query with a UNION that disagrees fails on every input |
| `Shapes.UnionOfTwoNamesFails` | crates/rspark-sql/src/planner.rs:83-106 | selecting two differently named columns of one table is such a UNION |
| `Having.MatchIsEquality` | crates/rspark-sql/src/planner.rs:275-307 | on alias-free expressions a strict match is equality |
| `Terms.MatchesExactly` | crates/rspark-sql/src/planner.rs:275-307 | on all expressions: a strict match is equality up to aliases of two expressions made of columns, literals other than NaN, binary operators and aggregates |
| `Having.AggregateReads` | crates/rspark-exec/src/operators.rs:191-220 | looking a selected aggregate up by output name in the projected row gives its fold over the group |
| `Having.SameOperator` | crates/rspark-exec/src/operators.rs:222-257 | the second operator table agrees with the first on comparisons, and on AND and OR of truth values |
| `Having.HavingMeaning` | crates/rspark-exec/src/operators.rs:151-257 | the verdict on every predicate of comparisons and LIKE over literals, columns, aggregates, conditionals and arithmetic, with AND, OR, NOT, IS NULL and IS NOT NULL: an error if an aggregate stands below a unary operator, else the truth of the predicate with columns and aggregates read from the output columns of their names, beside an aggregate with arithmetic and LIKE on non-null operands as errors |
| `Having.RewritePreservesMeaning` | crates/rspark-sql/src/planner.rs:258-307 | for the faithful ones (columns selected under their own name, aggregates selected, not below a unary operator and not beside exposed arithmetic or LIKE), evaluating the rewritten predicate on a group's projected row is deciding the original one on the group, errors and nulls included |
| `HavingFailures.HavingExactly` | crates/rspark-exec/src/operators.rs:151-220 | the faithful predicates keep their meaning, and those that put an aggregate below a unary operator or miss an output name fail on every projected row |
| `HavingFailures.ChokingFails` | crates/rspark-exec/src/operators.rs:222-257 | beside an aggregate, an exposed arithmetic or LIKE operator with non-null operands makes the verdict an error |
| `HavingFailures.AggregatePlusOne` | crates/rspark-exec/src/operators.rs:222-257 | `HAVING a + 1 > 3` for a selected aggregate drops the group where it is null and is an error everywhere else |
| `HavingFailures.ColumnReadsOutputName` | crates/rspark-sql/src/planner.rs:258-307 | a rewritten column reads the output column of that name, and is `ColumnNotFound` if there is none |
| `Having.HavingKeepsGroups` | crates/rspark-exec/src/operators.rs:151-220 | filtering with a faithful predicate's rewriting keeps exactly the rows of the groups that satisfy the original one |
| `Having.PlannedHaving` | crates/rspark-sql/src/planner.rs:134-160 | the planned aggregate, projection and filter nodes together return exactly those rows |
| `HavingFailures.PlannedHavingFails` | crates/rspark-sql/src/planner.rs:134-160 | with a predicate that puts an aggregate below a unary operator or misses an output name they fail on every non-empty input |
| `HavingFailures.NotCountIsBroken` | crates/rspark-exec/src/operators.rs:218-219 | `HAVING NOT (COUNT(1) > 1)` is such a predicate |
| `Records.Validate` | crates/rspark-core/src/record.rs:41-59 | a record passes if and only if it has the schema's width and no null in a not-null field |
| `Records.FromRecords` | crates/rspark-core/src/record.rs:76-81 | succeeds if and only if every record fits, and then holds them |
| `Records.BatchSlot.Push` | crates/rspark-core/src/record.rs:99-103 | appends a fitting record, refuses any other and then changes nothing |
| `Records.BatchSlot.Extend` | crates/rspark-core/src/record.rs:105-113 | appends the rows if and only if the schemas are equal |
| `Expressions.EvalDependsOnReferences` | crates/rspark-core/src/expr.rs:248-311 | rows that agree on the referenced columns give the same value or the same error |
| `Expressions.CollectColumns` | crates/rspark-core/src/expr.rs:321-344 | the accumulator gains exactly the column leaves |
| `Expressions.References` | crates/rspark-core/src/expr.rs:313-319 | the result is strictly increasing and exactly the set of column leaves |
| `Terms.LeavesAreParts` | crates/rspark-core/src/expr.rs:321-344 | the column leaves are exactly the columns among the operands at any depth |
| `Terms.AggregatesAreParts` | crates/rspark-core/src/expr.rs:346-368 | the planner's test finds an aggregate at any depth, the executor's own only outside IF |
| `Terms.NamesAre` | crates/rspark-core/src/expr.rs:223-246 | an alias is the output name, a column keeps its own, an aggregate is its function and argument |
| `Terms.OperatorNamesAre` | crates/rspark-core/src/expr.rs:223-246 | the output names of operators, conditionals, null tests and literals |
| `Terms.AggregateNamesDiffer` | crates/rspark-core/src/expr.rs:223-246 | two aggregates of columns share an output name if and only if function and column agree, DISTINCT or not |
| `Terms.SelectColumns` | crates/rspark-sql/src/plan.rs:164-181 | without `*` the output has one nullable column per item under its name, and for `*` alone the input's columns |
| `Terms.InferredTypeHolds` | crates/rspark-sql/src/plan.rs:204-246 | for literals, comparisons, logic, null tests, division, and conditionals and aliases of these, the inferred type is the type of every non-null value |
| `Terms.ArithmeticTypeExactly` | crates/rspark-sql/src/plan.rs:223-235 | the inferred Float64 is right for a quotient, wrong for a remainder, and right for `+`, `-` and `*` if and only if an operand does not cast to an integer |
| `Terms.AggregateTypes` | crates/rspark-sql/src/plan.rs:212-216 | and right for COUNT, SUM and AVG over every group |
| `Operations.ComparisonsMean` | crates/rspark-core/src/expr.rs:370-394 | `=` and `<>` are complementary structural equality; `<`, `<=`, `>` and `>=` follow the order of values and are errors where it is undefined |
| `Comparisons.ValueEqExactly` | crates/rspark-core/src/value.rs:6-16 | structural equality: same type and same value, and no NaN |
| `Operations.IntegerArithmetic` | crates/rspark-core/src/expr.rs:418-434 | on integers `+`, `-` and `*` are exact where the result fits 64 bits and otherwise congruent to it modulo 2^64 |
| `Operations.DivisionIs` | crates/rspark-core/src/expr.rs:436-448 | `/` is null on a zero divisor and otherwise the host's quotient |
| `Operations.IntegerRemainder` | crates/rspark-core/src/expr.rs:450-462 | `%` is null on zero, else the remainder of the quotient rounded toward zero, with the dividend's sign |
| `Operations.FloatArithmeticExactly` | crates/rspark-core/src/expr.rs:418-434 | `+`, `-` and `*` compute on integers unless an operand is text that is no integer |
| `Operations.FloatSumTruncates` | crates/rspark-core/src/expr.rs:418-434 | 1.5 + 1.5 is 2 on a host that truncates 1.5 to 1 |
| `Operations.FractionArithmetic` | crates/rspark-core/src/expr.rs:418-434 | with such text they are the host's on the operands as Float64 |
| `Operations.ArithmeticNeedsNumbers` | crates/rspark-core/src/expr.rs:418-462 | on non-null operands `+`, `-` and `*` succeed exactly when both cast to an integer or both to a number, `/` when both cast to a number, `%` when both cast to an integer |
| `Operations.LogicNeedsTruth` | crates/rspark-core/src/expr.rs:396-416 | AND and OR succeed exactly on truth values |
| `Operations.UnaryMeans` | crates/rspark-core/src/expr.rs:269-311 | null tests, NOT, conditionals and aliases against the value of their operand |
| `Operations.ColumnMeans` | crates/rspark-core/src/expr.rs:250-257 | a column reads the cell under the first field of its name, null if the row is short |
| `Operations.NoValueInRow` | crates/rspark-core/src/expr.rs:248-311 | `*`, an aggregate and an unknown column are errors in a row |
| `Operations.CastToStringIs` | crates/rspark-core/src/value.rs:35-45 | integers render as decimals that read back as the number, truth values as true and false |
| `Operations.CastsAgree` | crates/rspark-core/src/value.rs:47-85 | on every value but a string the casts agree with each other |
| `Operations.TextCasts` | crates/rspark-core/src/value.rs:35-69 | text renders as itself and casts to the number it parses as |
| `Operations.BooleanTexts` | crates/rspark-core/src/value.rs:71-85 | which texts cast to true and to false, in any case |
| `Like.SqlLikeToRegex` | crates/rspark-core/src/expr.rs:490-507 | the character loop emits the translated pattern |
| `Like.ParseEmitted` | crates/rspark-core/src/expr.rs:490-507 | reading the emitted text as a regular expression recovers one token per pattern element |
| `Like.LikeCompilation` | crates/rspark-core/src/expr.rs:464-507 | for every engine, every target and every pattern whose backslashes stand before punctuation or at the end, the anchored expression is accepted and means LIKE with wildcards that stop at a newline |
| `Like.LineLikeIsLike` | crates/rspark-core/src/expr.rs:464-507 | on targets without a newline that is LIKE (section 8.5 of ISO/IEC 9075:1992) |
| `Like.PlainLike` | crates/rspark-core/src/expr.rs:464-507 | so for patterns without a backslash and targets without a newline the compiled pattern is LIKE |
| `Like.EngineDecidesUnclean` | crates/rspark-core/src/expr.rs:464-507 | a pattern with any other escape leaves the subset, and the engine's answer stands |
| `Like.LikeIsExactly` | crates/rspark-core/src/expr.rs:464-507 | for the same patterns on every target: LIKE holds and the target has no newline beyond those the pattern spells out |
| `Operations.LikeOperatorIs` | crates/rspark-core/src/expr.rs:464-488 | so the operator's left operand is the target and its right one the pattern; for other patterns the engine's answer is its value, and its refusal an error |
| `Operations.LikeNeedsStrings` | crates/rspark-core/src/expr.rs:464-488 | non-null operands that are no strings are errors |
| `Like.NewlineDefeatsPercent` | crates/rspark-core/src/expr.rs:490-507 | the pattern `%` does not match a newline |
| `Desugaring.BuildCoalesce` | crates/rspark-sql/src/expr_builder.rs:180-197 | the loop builds the left-nested conditional chain, NULL for no arguments |
| `Desugaring.CoalesceMeaning` | crates/rspark-sql/src/expr_builder.rs:180-197 | for any number of arguments it evaluates to the first non-null one, else null, or the first error before that |
| `Desugaring.CoalesceStopsEarly` | crates/rspark-core/src/expr.rs:248-311 | once an argument is non-null or fails, later arguments do not matter |
| `Desugaring.BuildInList` | crates/rspark-sql/src/expr_builder.rs:105-125 | the loop builds the OR chain, FALSE for an empty list, negated for NOT IN |
| `Desugaring.InListMeaning` | crates/rspark-sql/src/expr_builder.rs:105-125 | a non-empty list is null if the target or any item is, else whether some item equals the target |
| `Desugaring.EmptyInList` | crates/rspark-sql/src/expr_builder.rs:105-125 | nothing is in an empty list, whatever the target |
| `Desugaring.InListFails` | crates/rspark-core/src/expr.rs:248-311 | with a failing operand it fails with the first failure, however the others compare |
| `Desugaring.BetweenMeaning` | crates/rspark-sql/src/expr_builder.rs:90-104 | BETWEEN and NOT BETWEEN on evaluated operands: error on incomparable ones, else null on nulls, else the closed interval test |
| `Desugaring.BetweenFails` | crates/rspark-core/src/expr.rs:248-311 | with an operand that fails to evaluate it fails with the first failure in evaluation order |
| `ArrowBatches.ArrowFromCore` | crates/rspark-exec/src/arrow_batch.rs:107-122 | appending cell by cell to the builders yields the columns of the batch |
| `ArrowBatches.ArrowToCore` | crates/rspark-exec/src/arrow_batch.rs:127-138 | reading cell by cell yields the rows of the columns |
| `ArrowBatches.FromCoreFailsExactly` | crates/rspark-exec/src/arrow_batch.rs:107-122 | a valid batch is refused if and only if it has no column, or has rows and both a Null-typed and another column |
| `ArrowBatches.RoundTripMeaning` | crates/rspark-exec/src/arrow_batch.rs:52-304 | the outcome for every valid batch: refused as above, else without rows if some column is Null-typed, else the same rows with each cell coerced to its column type |
| `ArrowBatches.CoercionsAre` | crates/rspark-exec/src/arrow_batch.rs:140-230 | what integers, truth values and text become in a column of another type, 0 or false where they do not fit or parse |
| `ArrowBatches.FloatCoercionsAre` | crates/rspark-exec/src/arrow_batch.rs:140-230 | what floats become in a column of another type |
| `ArrowBatches.RoundTripTypes` | crates/rspark-exec/src/arrow_batch.rs:241-304 | Date, Timestamp and Null columns come back as String, every other as itself |
| `ArrowBatches.RoundTripIsIdentity` | crates/rspark-exec/src/arrow_batch.rs:52-304 | for every valid batch the round trip is the identity if and only if there is a column, none is of type Null, Date or Timestamp, and every value is null or of its declared type |
| `ArrowBatches.RoundTripIdempotent` | crates/rspark-exec/src/arrow_batch.rs:52-304 | whatever comes back from a round trip comes back unchanged from a second one |
| `ArrowBatches.NullColumnsLoseRows` | crates/rspark-exec/src/arrow_batch.rs:233-241 | every batch whose columns are all Null-typed comes back with String columns and no rows |
| `Partitioner.CollectScans` | crates/rspark-cluster/src/partitioner.rs:27-64 | appends the partitions of every scan from left to right under consecutive indices |
| `Partitioner.PlanPartitions` | crates/rspark-cluster/src/partitioner.rs:14-25 | never empty: one partition per scan and degree of parallelism, or the single stand-in when that product is zero |
| `Partitioner.LabelAt` | crates/rspark-cluster/src/partitioner.rs:34-44 | which label stands at which position |
| `Scans.SelectScans` | crates/rspark-sql/src/planner.rs:183-225 | a planned SELECT scans the catalog's paths of its tables in the order of FROM |
| `Scans.QueryLabels` | crates/rspark-cluster/src/partitioner.rs:27-64 | a planned query has parallelism many labels per table it names, from left to right, the j-th of a table being `scan[path]:pj` |
| `Scans.NoLabelsMeansStandIn` | crates/rspark-cluster/src/partitioner.rs:14-25 | it has the single stand-in label if and only if it names no table or the parallelism is zero |
| `Masters.ClusterState.UpdateTask` | crates/rspark-cluster/src/state.rs:168-181 | the update step: first terminal status takes the id off the queue and counts a success |
| `Masters.ClusterState.PopPending` | crates/rspark-cluster/src/state.rs:201-204 | pops the head and returns its task |
| `Masters.ClusterState.TasksForJob` | crates/rspark-cluster/src/state.rs:191-199 | lists each task filed under the job exactly once, as the map has it |
| `Masters.Progress` | crates/rspark-cluster/src/stage.rs:34-41 | the number of terminal tasks, and the number of tasks |
| `Masters.Master.SubmitJob` | crates/rspark-cluster/src/master.rs:47-89 | the in-place updates amount to the submit step and keep the invariant; a statement that does not plan changes nothing |
| `Masters.Master.SubmitJobSkipPlan` | crates/rspark-cluster/src/master.rs:114-121 | the same for recording a job without tasks |
| `Masters.Master.TryAssignTask` | crates/rspark-cluster/src/master.rs:91-109 | hands out the oldest queued task, recorded under this worker in the map and in the stage; none if and only if the queue is empty |
| `Masters.Master.CompleteTask` | crates/rspark-cluster/src/master.rs:123-193 | the in-place updates amount to the completion step and keep the invariant; refused without effect if and only if the task is unknown; the job lookup never fails |
| `ClusterSteps.SubmitKeepsInv` | crates/rspark-cluster/src/master.rs:47-89 | submitting keeps every copy of every fact in agreement |
| `ClusterSteps.AssignKeepsInv` | crates/rspark-cluster/src/master.rs:91-109 | assigning does |
| `ClusterSteps.CompleteKeepsInv` | crates/rspark-cluster/src/master.rs:123-193 | any report does, about any task, repeated or not |
| `ClusterRuns.ReachableInv` | crates/rspark-cluster/src/master.rs:47-193 | so every state reachable by submissions, polls and arbitrary reports satisfies the invariant |
| `ClusterRuns.TaskCopiesAgree` | crates/rspark-cluster/src/master.rs:47-193 | in every reachable state a task's stage and job exist and refer to each other, and every copy of the task equals the task map's entry |
| `Submissions.SubmittedTasks` | crates/rspark-cluster/src/master.rs:47-89 | after the submission of a planned statement, every later state has a new job with its name, statement and parallelism of at least one, and one stage with a task per partition label: each task carries the statement, the k-th one the k-th label |
| `Submissions.TaskRunsItsJob` | crates/rspark-cluster/src/master.rs:47-193 | in every reachable state every task's statement is its job's |
| `Submissions.HandedStatement` | crates/rspark-cluster/src/master.rs:91-109 | so is that of the task handed to a polling worker |
| `Submissions.SkippedJob` | crates/rspark-cluster/src/master.rs:114-121 | a job recorded without planning keeps its name, statement and parallelism in every later state |
| `Submissions.TasksRecord` | crates/rspark-cluster/src/master.rs:47-193 | in every reachable state a task has a worker once handed out, and rows and error only once reported, as its status says |
| `Submissions.ReportTouchesItsTask` | crates/rspark-cluster/src/master.rs:123-193 | a report writes its rows, outcome and error into the task it names, and touches no other task, stage or job |
| `Submissions.FailureNamesATask` | crates/rspark-cluster/src/master.rs:166-191 | after a report, the job of the reported task, if it has a failed task, is failed with the message of one of its failed tasks |
| `Submissions.StageFailureReason` | crates/rspark-cluster/src/master.rs:152-163 | in every reachable state a failed stage has the fixed reason |
| `Submissions.AssignTouchesItsTask` | crates/rspark-cluster/src/master.rs:91-109 | handing out a task touches no other task and no job |
| `ClusterRuns.SuccessAgrees` | crates/rspark-cluster/src/master.rs:145-191 | in every reachable state: job succeeded iff stage succeeded iff all its tasks succeeded, with the row count their sum; stage failed iff some task is failed |
| `ClusterRuns.UnplannedJobStaysRunning` | crates/rspark-cluster/src/master.rs:114-121 | a job recorded without planning never gets a task and stays running |
| `ClusterRuns.RowsCountOncePerTask` | crates/rspark-cluster/src/worker.rs:45-54 | if every task of a succeeded job reports n rows, the job's row count is n times its number of tasks (scans times parallelism, at least one), which is n if and only if n is zero or there is one task |
| `ClusterRuns.FailedExactly` | crates/rspark-cluster/src/master.rs:166-191 | over arbitrary runs a job is failed iff not all its tasks are succeeded and some task of it was ever reported as failed |
| `ClusterRuns.FailedAgreesExactly` | crates/rspark-cluster/src/master.rs:166-191 | "failed iff some task is failed" holds of a job except when a failure was reported, no task is failed now and not all are succeeded |
| `ClusterRuns.RepeatedReportLeavesJobFailed` | crates/rspark-cluster/src/master.rs:166-191 | a reachable state in that exception |
| `ClusterRuns.FailedIffSomeTaskFailed` | crates/rspark-cluster/src/master.rs:166-191 | if no task is reported twice, a job is failed iff some task of it is failed |
| `ClusterRuns.TerminalIsFinal` | crates/rspark-cluster/src/master.rs:145-191 | if no task is reported twice, success and failure of a stage and of its job are final |
| `ClusterRuns.RunGrows` | crates/rspark-cluster/src/state.rs:168-181 | along every run the run counter and the logs only grow, and jobs, stages and tasks keep their names, statements, labels and links |
| `ClusterRuns.RunCounterExact` | crates/rspark-cluster/src/state.rs:168-181 | over arbitrary runs the counter is the number of tasks whose first report was a success |
| `ClusterRuns.QueueExact` | crates/rspark-cluster/src/state.rs:162-204 | in every run the queue is duplicate-free, holds exactly the pending tasks in submission order, and no task is handed out twice |
| `ClusterRuns.DispatchInOrder` | crates/rspark-cluster/src/state.rs:162-204 | in every run, disciplined or not, the tasks handed out followed by the queue are a subsequence of the submitted ones |
| `ClusterRuns.FifoDispatch` | crates/rspark-cluster/src/state.rs:162-204 | if reports name only tasks handed out before, handed-out tasks followed by the queue are the submitted tasks in order |
| `Workers.WorkersAreOrderly` | crates/rspark-cli/src/commands.rs:183-244 | every interleaving of worker loops with lost responses and lost reports is such a run, and reports no task twice |
| `Workers.PollGetsTheOldest` | crates/rspark-cli/src/commands.rs:183-200 | a poll assigns the oldest queued task to its worker, which executes it if and only if the response arrives |
| `Workers.DeliveredReport` | crates/rspark-cli/src/commands.rs:205-226 | a delivered report records a success with its rows if and only if the execution had no failure, and otherwise no rows and its error; other tasks keep what they hold |
| `Workers.LostReport` | crates/rspark-cli/src/commands.rs:214-226 | a lost report changes nothing at the master |
| `Layers.PeelLayers` | crates/rspark-pipelines/src/dag.rs:53-84 | terminates on every multigraph; its layers are the rounds of removing nodes without incoming edges; the subtraction never saturates; the empty-layer break is taken iff there is a cycle |
| `Layers.ReleaseNode` | crates/rspark-pipelines/src/dag.rs:73-79 | after releasing a node the counts are the edges from the nodes still unreleased, parallel edges counted, without saturating |
| `Layers.LayeringMeaning` | crates/rspark-pipelines/src/dag.rs:53-84 | a node is in layer k iff its longest dependency path has k edges, and in no layer iff it is reachable from a cycle |
| `Layers.RemainingIsPaths` | crates/rspark-pipelines/src/dag.rs:53-84 | a node survives k rounds iff a path with k edges ends in it |
| `Layers.StuckIsFromCycle` | crates/rspark-pipelines/src/dag.rs:67-69 | when a round removes nothing, what is left is exactly what is reachable from a cycle |
| `Pipelines.FromPipeline` | crates/rspark-pipelines/src/dag.rs:27-49 | rejected for the first unknown dependency iff there is one, else for a cycle iff the declared dependencies have one, naming a flow on a dependency cycle, else the graph of the dependencies |
| `Pipelines.CyclesCorrespond` | crates/rspark-pipelines/src/dag.rs:34-47 | the graph is acyclic iff no chain of declared dependencies closes, duplicate names included |
| `Pipelines.FindFlow` | crates/rspark-pipelines/src/runner.rs:102-110 | finds the first flow of the name a node stands for; nothing iff no name stands for it |
| `Pipelines.Run` | crates/rspark-pipelines/src/runner.rs:84-123 | for every pipeline and every pattern of outcomes: each declared name is attempted exactly once, through its first flow, after all dependencies declared under it; the report is that of those attempts |
| `Pipelines.ReportCounts` | crates/rspark-pipelines/src/runner.rs:111-118 | every attempt leaves exactly one entry, in the flows or in the errors |
| `Pipelines.ReportIs` | crates/rspark-pipelines/src/runner.rs:111-118 | the report lists in order of attempt exactly the finished flows with their row counts, and exactly the broken ones with name and message |
| `Pipelines.ListedIffFinished` | crates/rspark-pipelines/src/runner.rs:111-118 | so a flow is listed with a row count if and only if its attempt finished with it |
| `Pipelines.RunAttemptsFirsts` | crates/rspark-pipelines/src/runner.rs:102-110 | a flow is attempted if and only if it is the first of its name, so all are if and only if names are unique |
| `Pipelines.UniqueNamesRunOnce` | crates/rspark-pipelines/src/runner.rs:84-123 | with unique names each flow is attempted exactly once, after all flows it depends on, and flows plus errors is the number of flows |

## Left out

- HTTP, Kafka, S3, Kubernetes, dashboard, browser extension, command line and ingest: input and output without a hard property.
- The `execute_sql` handler and `fetch_remote_state`, which write job and task records outside the master.
- Interleavings inside one `Master` method, and liveness: a lost response leaves a task assigned for good.
- Timestamps, durations, heartbeats, worker registration and the stage callback.
- Overflow of the row sum of a job and of the run counter.
- Which of the nodes on cycles the cycle error names, and which failed task's message a job reports (arbitrary among the failed ones).
- Live flows, and what running one flow does: it is an outcome parameter.
- SQL parsing and the translation of parsed expressions, apart from COALESCE, IN and BETWEEN; NVL and the pass-through functions.
- CTEs, other set operations and scalar subqueries, which the planner refuses.
- COUNT(DISTINCT): the flag reaches the accumulator and is ignored there, so it is COUNT.
- `execute_with_input`, `ExecutionContext::execute_plan`, `lower_plan` and the Arrow kernels.
- Signed zero, float rounding and number syntax, which are `Host` parameters; the panic of `i64::MIN % -1`, and the panic that `sort_by` may raise, since Rust 1.81, when the comparator is no total order.
- Like.LikeCompilation: patterns whose backslash stands before a letter, a digit, an angle bracket or a non-ASCII character (such as `\d`) are the engine's own, see `Like.EngineDecidesUnclean`.
- Extremes.MinExactly: leaves open lists that mix integers, Float32 and Float64, where the outcome depends on the order of the arguments.
- Having.HavingMeaning: what a condition inside IF does with an aggregate is row evaluation's error, not a reading of the group.
- The size limit of the regular-expression engine: a very long LIKE pattern is an error rather than accepted.
- SqlNulls.WhereIsSqlExactly: conditions with an operand that fails to evaluate or is no truth value; both evaluators would raise an error, but SQL leaves open which operands are evaluated.
- Queries.GroupedSelectRows: speaks of SELECT lists of aggregates and of expressions over the group columns whose output names differ, and of the HAVING conditions that `Having.RewritePreservesMeaning` names; what other lists and conditions read is `Having.HavingMeaning`.
- Queries.QueryRows: promises an order only where the comparator is a total preorder on the keys at hand, see `Sorting.LibrarySortIs`.
- The texts of error messages, apart from the names and types in them.
