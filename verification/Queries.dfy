/** What planned queries return (crates/rspark-sql/src/planner.rs:30-181), said of the tables and not of the plan. */
module Queries {
  import opened Results
  import opened Values
  import opened Records
  import opened Expressions
  import opened Plans
  import opened Orders
  import opened Subsequences
  import opened Operators
  import opened Distincts
  import opened Comparisons
  import opened Aggregating
  import opened Sorting
  import opened Executor
  import opened Planner
  import opened NaturalJoins
  import opened Having
  import opened Nodes
  import opened TopRows
  import Shapes

  // ----- running a query: plan it, execute the plan -----

  ghost function RunSelect(env: Env, s: SelectQuery, catalog: Catalog): Result<Batch> {
    var p :- PlanSelect(env.host, s, catalog);
    Denote(p, env)
  }

  ghost function RunBody(env: Env, body: SetExpr, catalog: Catalog): Result<Batch> {
    var p :- PlanSetExpr(env.host, body, catalog);
    Denote(p, env)
  }

  ghost function RunQuery(env: Env, q: Query, catalog: Catalog): Result<Batch> {
    var p :- PlanQuery(env.host, q, catalog);
    Denote(p, env)
  }

  // ----- FROM and WHERE -----

  /** What FROM supplies: the natural join of the tables, and no row at all when there is no table. */
  ghost function Supplied(ts: Tables): Batch {
    if ts == [] then Batch([], []) else NaturalJoin(ts)
  }

  /** The rows on which the condition is true. */
  ghost function Where(h: Host, condition: Option<Expr>, b: Batch): seq<Record> {
    match condition
    case None => b.records
    case Some(e) =>
      Select(b.records, seq(|b.records|, i requires 0 <= i < |b.records| =>
        EvalPredicate(h, e, b.records[i], b.schema) == Ok(true)))
  }

  /** A condition without aggregates is true where it evaluates to true; null and false both drop the row, and any
      other value is an error. */
  lemma ConditionIs(h: Host, e: Expr, row: Record, schema: Schema)
    requires !HasAggregate(e)
    ensures EvalPredicate(h, e, row, schema) == Ok(true) <==> Eval(h, e, row, schema) == Ok(Boolean(true))
    ensures EvalPredicate(h, e, row, schema) == Ok(false)
       <==> Eval(h, e, row, schema) in {Ok(Boolean(false)), Ok(Null)}
  {
    hide Eval;
  }

  /** The plan below the SELECT list. */
  ghost function FilteredPlan(s: SelectQuery, catalog: Catalog): Result<Plan> {
    var base :- FromPlan(s.from, |s.from|, catalog);
    Ok(match s.selection case Some(e) => Filter(base, e, OutputSchema(base)) case None => base)
  }

  lemma NoTables(env: Env, catalog: Catalog)
    ensures FromPlan([], 0, catalog) == Ok(Empty) && Yields(Empty, env, Supplied([]))
  {
  }

  lemma FromSupplies(env: Env, tables: seq<string>, catalog: Catalog, ts: Tables)
    requires Scanned(tables, catalog, env, ts)
    ensures FromPlan(tables, |tables|, catalog).Ok?
    ensures Yields(FromPlan(tables, |tables|, catalog).value, env, Supplied(ts))
    ensures ValidBatch(Supplied(ts))
  {
    hide NaturalJoin, ScannedAs, IsTable, FromPlan, Yields;
    if tables == [] {
      NoTables(env, catalog);
    } else {
      FromIsNaturalJoin(tables, |tables|, catalog, env, ts);
      NaturalJoinValid(ts);
      assert ts[..|ts|] == ts;
    }
  }

  /** FROM and WHERE: the filtered rows, under the schema of the join. */
  lemma FilteredYields(env: Env, s: SelectQuery, catalog: Catalog, ts: Tables)
    requires Scanned(s.from, catalog, env, ts)
    ensures FilteredPlan(s, catalog).Ok?
    ensures Denote(FilteredPlan(s, catalog).value, env).Ok? ==>
      Yields(FilteredPlan(s, catalog).value, env,
             Batch(Supplied(ts).schema, Where(env.host, s.selection, Supplied(ts))))
  {
    hide Supplied, Scanned, EvalPredicate, Select, FromPlan;
    FromSupplies(env, s.from, catalog, ts);
    var base, b := FromPlan(s.from, |s.from|, catalog).value, Supplied(ts);
    match s.selection
    case None => assert Batch(b.schema, b.records) == b;
    case Some(e) =>
      var r := Denote(Filter(base, e, b.schema), env);
      if r.Ok? {
        FilterNode(base, e, b.schema, env, b, r.value);
      }
  }

  // ----- SELECT without grouping -----

  /** Row by row, the cells of the SELECT items. */
  ghost predicate ProjectsTo(h: Host, es: seq<Expr>, b: Batch, out: seq<Record>) {
    |out| == |b.records|
    && forall i :: 0 <= i < |b.records| ==> IsProjection(h, es, b.records[i], b.schema, out[i])
  }

  predicate IsGrouped(s: SelectQuery) {
    s.groupBy != [] || exists k :: 0 <= k < |s.projections| && ContainsAggregate(s.projections[k])
  }

  lemma {:induction false} AggregatesShow(projections: seq<Expr>)
    ensures AggregateProjections(projections) == []
       <==> forall k :: 0 <= k < |projections| ==> !ContainsAggregate(projections[k])
  {
    hide ContainsAggregate;
    if projections != [] {
      AggregatesShow(projections[1..]);
      assert forall k :: 1 <= k < |projections| ==> projections[k] == projections[1..][k - 1];
    }
  }

  lemma PlainPlan(h: Host, s: SelectQuery, catalog: Catalog)
    requires !IsGrouped(s) && FilteredPlan(s, catalog).Ok?
    ensures var input := FilteredPlan(s, catalog).value;
      var schema := ProjectSchema(h, s.projections, OutputSchema(input));
      PlanSelect(h, s, catalog)
      == Ok(if s.distinct then Distinct(Project(input, s.projections, schema), schema)
            else Project(input, s.projections, schema))
  {
    hide ContainsAggregate, FromPlan, AggregateProjections, ProjectSchema;
    AggregatesShow(s.projections);
  }

  lemma ChildSucceeds(p: Plan, env: Env)
    requires FirstChild(p).Some? && !p.Union? && Denote(p, env).Ok?
    ensures Denote(FirstChild(p).value, env).Ok?
  {
  }

  /** A SELECT without grouping returns, in order, one projection per row of the natural join of its tables on which
      the WHERE condition is true; with DISTINCT, only the first one of each key. */
  lemma SelectRows(env: Env, s: SelectQuery, catalog: Catalog, ts: Tables, out: Batch) returns (projected: seq<Record>)
    requires Scanned(s.from, catalog, env, ts) && !IsGrouped(s) && RunSelect(env, s, catalog) == Ok(out)
    ensures ProjectsTo(env.host, s.projections,
                       Batch(Supplied(ts).schema, Where(env.host, s.selection, Supplied(ts))), projected)
    ensures out.records == if s.distinct then Select(projected, Firsts(env.host, projected)) else projected
    ensures out.schema == ProjectSchema(env.host, s.projections, Supplied(ts).schema)
  {
    hide Denote, Supplied, Where, Scanned, IsProjection, PlanSelect, FilteredPlan, ProjectSchema, Firsts, Select;
    FilteredYields(env, s, catalog, ts);
    PlainPlan(env.host, s, catalog);
    var input := FilteredPlan(s, catalog).value;
    var schema := ProjectSchema(env.host, s.projections, OutputSchema(input));
    var project := Project(input, s.projections, schema);
    if s.distinct {
      ChildSucceeds(Distinct(project, schema), env);
    }
    ChildSucceeds(project, env);
    var kept, p := Denote(input, env).value, Denote(project, env).value;
    ProjectNodeIs(input, s.projections, schema, env, kept, p);
    projected := p.records;
    if s.distinct {
      DistinctNode(project, schema, env, p, out);
    }
  }

  // ----- when it succeeds -----

  ghost predicate ConditionWorks(h: Host, condition: Option<Expr>, b: Batch) {
    condition.Some? ==>
      forall i :: 0 <= i < |b.records| ==> EvalPredicate(h, condition.value, b.records[i], b.schema).Ok?
  }

  ghost predicate HasCells(h: Host, e: Expr, row: Record, schema: Schema) {
    exists cells: Record :: Contributes(h, e, row, schema, cells)
  }

  ghost predicate ItemsWork(h: Host, es: seq<Expr>, row: Record, schema: Schema) {
    forall k :: 0 <= k < |es| ==> HasCells(h, es[k], row, schema)
  }

  lemma {:induction false} FilterWorks(h: Host, e: Expr, rows: seq<Record>, schema: Schema)
    ensures FilterRows(h, e, rows, schema).Ok?
       <==> forall i :: 0 <= i < |rows| ==> EvalPredicate(h, e, rows[i], schema).Ok?
  {
    hide EvalPredicate;
    if rows != [] {
      FilterWorks(h, e, rows[1..], schema);
      assert forall i :: 1 <= i < |rows| ==> rows[i] == rows[1..][i - 1];
    }
  }

  lemma ItemWorks(h: Host, e: Expr, row: Record, schema: Schema)
    ensures ProjectItem(h, e, row, schema).Ok? <==> HasCells(h, e, row, schema)
  {
    hide Eval, Lookup;
    var item := ProjectItem(h, e, row, schema);
    if item.Ok? {
      ItemContributes(h, e, row, schema);
      assert Contributes(h, e, row, schema, item.value);
    }
  }

  lemma {:induction false} ValuesWork(h: Host, es: seq<Expr>, row: Record, schema: Schema)
    ensures ProjectValues(h, es, row, schema).Ok? <==> ItemsWork(h, es, row, schema)
  {
    hide ProjectItem, HasCells;
    if es != [] {
      ItemWorks(h, es[0], row, schema);
      ValuesWork(h, es[1..], row, schema);
      assert forall k :: 1 <= k < |es| ==> es[k] == es[1..][k - 1];
    }
  }

  lemma {:induction false} ProjectionWorks(h: Host, es: seq<Expr>, rows: seq<Record>, schema: Schema)
    requires AllFit(rows, schema)
    ensures ProjectRows(h, es, rows, schema, ProjectSchema(h, es, schema)).Ok?
       <==> forall i :: 0 <= i < |rows| ==> ItemsWork(h, es, rows[i], schema)
  {
    hide ProjectValues, ItemsWork, Fits, ProjectSchema;
    if rows != [] {
      ValuesWork(h, es, rows[0], schema);
      Shapes.ProjectValuesFit(h, es, rows[0], schema);
      ProjectionWorks(h, es, rows[1..], schema);
      assert forall i :: 1 <= i < |rows| ==> rows[i] == rows[1..][i - 1];
    }
  }

  lemma FilterNodeWorks(input: Plan, e: Expr, env: Env, b: Batch)
    requires Denote(input, env) == Ok(b) && ValidBatch(b)
    ensures Denote(Filter(input, e, b.schema), env).Ok? <==> ConditionWorks(env.host, Some(e), b)
  {
    hide EvalPredicate, FilterRows;
    FilterWorks(env.host, e, b.records, b.schema);
    Shapes.FilterFits(env.host, e, b.records, b.schema);
  }

  lemma ProjectNodeWorks(input: Plan, es: seq<Expr>, env: Env, b: Batch)
    requires Denote(input, env) == Ok(b) && ValidBatch(b)
    ensures Denote(Project(input, es, ProjectSchema(env.host, es, b.schema)), env).Ok?
       <==> forall i :: 0 <= i < |b.records| ==> ItemsWork(env.host, es, b.records[i], b.schema)
  {
    hide ProjectRows, ItemsWork;
    if es == [Star] {
      Shapes.SingleStarSchema(env.host, b.schema);
      forall i | 0 <= i < |b.records|
        ensures ItemsWork(env.host, es, b.records[i], b.schema)
      {
        StarWorks(env.host, b.records[i], b.schema);
      }
    } else {
      ProjectionWorks(env.host, es, b.records, b.schema);
      Shapes.ProjectFits(env.host, es, b.records, b.schema);
    }
  }

  lemma StarWorks(h: Host, row: Record, schema: Schema)
    ensures ItemsWork(h, [Star], row, schema)
  {
    assert Contributes(h, Star, row, schema, row);
  }

  lemma DistinctNodeWorks(input: Plan, env: Env, b: Batch)
    requires Denote(input, env) == Ok(b) && ValidBatch(b)
    ensures Denote(Distinct(input, b.schema), env).Ok?
  {
    hide FirstOccurrences;
    Shapes.DistinctFits(env.host, b.records, |b.records|, b.schema);
  }

  /** FROM and WHERE succeed when the condition has a truth value on every row; the kept rows fit the schema. */
  lemma FilteredWorks(env: Env, s: SelectQuery, catalog: Catalog, ts: Tables)
    requires Scanned(s.from, catalog, env, ts) && FilteredPlan(s, catalog).Ok?
    ensures Denote(FilteredPlan(s, catalog).value, env).Ok? <==> ConditionWorks(env.host, s.selection, Supplied(ts))
    ensures Denote(FilteredPlan(s, catalog).value, env).Ok? ==>
      ValidBatch(Batch(Supplied(ts).schema, Where(env.host, s.selection, Supplied(ts))))
  {
    hide Denote, Supplied, Scanned, EvalPredicate, Select, FromPlan, Where, FilterRows;
    FromSupplies(env, s.from, catalog, ts);
    FilteredYields(env, s, catalog, ts);
    var base, b := FromPlan(s.from, |s.from|, catalog).value, Supplied(ts);
    match s.selection
    case None => NoCondition(env.host, b);
    case Some(e) =>
      FilterNodeWorks(base, e, env, b);
      FilterUnfolds(base, e, b.schema, env);
  }

  lemma NoCondition(h: Host, b: Batch)
    ensures Batch(b.schema, Where(h, None, b)) == b
  {
  }

  /** A SELECT without grouping succeeds if and only if its condition has a truth value on every row of the join, and
      its items have values on every row that the condition keeps. */
  lemma SelectSucceeds(env: Env, s: SelectQuery, catalog: Catalog, ts: Tables)
    requires Scanned(s.from, catalog, env, ts) && !IsGrouped(s)
    ensures var kept := Where(env.host, s.selection, Supplied(ts));
      RunSelect(env, s, catalog).Ok?
      <==> ConditionWorks(env.host, s.selection, Supplied(ts))
           && forall i :: 0 <= i < |kept| ==> ItemsWork(env.host, s.projections, kept[i], Supplied(ts).schema)
  {
    hide Denote, Supplied, Where, Scanned, ItemsWork, PlanSelect, FilteredPlan, ProjectSchema, ConditionWorks;
    FilteredYields(env, s, catalog, ts);
    FilteredWorks(env, s, catalog, ts);
    PlainPlan(env.host, s, catalog);
    var input := FilteredPlan(s, catalog).value;
    var schema := ProjectSchema(env.host, s.projections, OutputSchema(input));
    var project := Project(input, s.projections, schema);
    if Denote(project, env).Ok? || RunSelect(env, s, catalog).Ok? {
      if s.distinct && RunSelect(env, s, catalog).Ok? {
        ChildSucceeds(Distinct(project, schema), env);
      }
      ChildSucceeds(project, env);
    }
    if Denote(input, env).Ok? {
      var kept := Denote(input, env).value;
      ProjectNodeWorks(input, s.projections, env, kept);
      if Denote(project, env).Ok? {
        ProjectOutput(env, input, s.projections, schema, kept);
        DistinctNodeWorks(project, env, Denote(project, env).value);
      }
    }
  }

  lemma ProjectOutput(env: Env, input: Plan, es: seq<Expr>, schema: Schema, b: Batch)
    requires Denote(input, env) == Ok(b) && Denote(Project(input, es, schema), env).Ok?
    ensures var out := Denote(Project(input, es, schema), env).value; ValidBatch(out) && out.schema == schema
  {
    hide ProjectRows;
  }

  // ----- grouped SELECT -----

  /** The row's group values render as the key. */
  ghost predicate HasKey(h: Host, groupBy: seq<Expr>, row: Record, schema: Schema, key: Key) {
    && |key| == |groupBy|
    && forall k :: 0 <= k < |groupBy| ==>
         Eval(h, groupBy[k], row, schema).Ok? && CastToString(h, Eval(h, groupBy[k], row, schema).value) == key[k]
  }

  /** The rows with the key, in order. */
  ghost function Group(h: Host, groupBy: seq<Expr>, b: Batch, key: Key): seq<Record> {
    Select(b.records, WithKey(h, groupBy, b, key))
  }

  ghost function WithKey(h: Host, groupBy: seq<Expr>, b: Batch, key: Key): (flags: seq<bool>)
    ensures |flags| == |b.records|
    ensures forall i :: 0 <= i < |b.records| ==> flags[i] == HasKey(h, groupBy, b.records[i], b.schema, key)
  {
    seq(|b.records|, i requires 0 <= i < |b.records| => HasKey(h, groupBy, b.records[i], b.schema, key))
  }

  ghost predicate KeyListed(h: Host, groupBy: seq<Expr>, row: Record, schema: Schema, keys: seq<Key>) {
    exists j :: 0 <= j < |keys| && HasKey(h, groupBy, row, schema, keys[j])
  }

  /** The keys of the rows, each once, in increasing order. */
  ghost predicate AreKeys(h: Host, groupBy: seq<Expr>, b: Batch, keys: seq<Key>) {
    && (forall i, j :: 0 <= i < j < |keys| ==> KeyBelow(keys[i], keys[j]))
    && (forall i :: 0 <= i < |b.records| ==> KeyListed(h, groupBy, b.records[i], b.schema, keys))
    && (forall j :: 0 <= j < |keys| ==> Group(h, groupBy, b, keys[j]) != [])
  }

  lemma DigestKey(h: Host, groups: seq<Expr>, aggs: seq<Expr>, row: Record, schema: Schema, d: Digest, key: Key)
    requires RowDigest(h, groups, aggs, row, schema) == Ok(d)
    ensures KeyOf(h, d) == key <==> HasKey(h, groups, row, schema, key)
  {
    hide Eval, CastToString, EvalArgs;
    EvalAllWidth(h, groups, row, schema);
    forall k | 0 <= k < |groups|
      ensures Eval(h, groups[k], row, schema) == Ok(d.values[k])
    {
      EvalAllAt(h, groups, row, schema, k);
    }
  }

  lemma {:induction false} MembersAreGroup(h: Host, groups: seq<Expr>, aggs: seq<Expr>, b: Batch, ds: seq<Digest>,
                                           key: Key)
    requires Digested(h, groups, aggs, b.records, b.schema, ds)
    ensures MemberRows(h, b.records, ds, key) == Group(h, groups, b, key)
    decreases |ds|
  {
    hide RowDigest, KeyOf, HasKey, WithKey;
    if ds != [] {
      var n := |ds| - 1;
      var before := Batch(b.schema, b.records[..n]);
      MembersAreGroup(h, groups, aggs, before, ds[..n], key);
      DigestKey(h, groups, aggs, b.records[n], b.schema, ds[n], key);
      assert WithKey(h, groups, b, key)[..n] == WithKey(h, groups, before, key);
    }
  }

  /** The executor's key list: strictly increasing, one entry per key of the rows. */
  lemma KeysAreListed(h: Host, groups: seq<Expr>, aggs: seq<Expr>, b: Batch, ds: seq<Digest>)
    requires Digested(h, groups, aggs, b.records, b.schema, ds)
    ensures AreKeys(h, groups, b, OrderedKeys(h, ds))
  {
    hide RowDigest, KeyOf, HasKey, KeyLt, KeyBelow, Group, MemberRows, Members, OrderedKeys;
    var keys := OrderedKeys(h, ds);
    OrderedKeysSpec(h, ds);
    forall i, j | 0 <= i < j < |keys|
      ensures KeyBelow(keys[i], keys[j])
    {
      KeyLtIs(keys[i], keys[j]);
    }
    forall i | 0 <= i < |b.records|
      ensures KeyListed(h, groups, b.records[i], b.schema, keys)
    {
      assert KeyOf(h, ds[i]) in Elements(keys);
      var j :| 0 <= j < |keys| && keys[j] == KeyOf(h, ds[i]);
      DigestKey(h, groups, aggs, b.records[i], b.schema, ds[i], keys[j]);
    }
    forall j | 0 <= j < |keys|
      ensures Group(h, groups, b, keys[j]) != []
    {
      KeyHasMembers(h, ds, j);
      MembersDigested(h, groups, aggs, b.records, b.schema, ds, keys[j]);
      MembersAreGroup(h, groups, aggs, b, ds, keys[j]);
    }
  }

  /** A SELECT item that has a value for a whole group: an aggregate, or an expression over the group columns. */
  ghost predicate IsGroupItem(groupBy: seq<Expr>, e: Expr) {
    var call := if e.Aliased? then e.expr else e;
    !e.Star? && (call.Aggregate? || forall c :: c in ColumnLeaves(call) ==> Column(c) in groupBy)
  }

  /** An aggregate item is folded over the group; any other is evaluated on its first row. */
  ghost predicate IsGroupCell(h: Host, e: Expr, group: seq<Record>, schema: Schema, v: Value)
    requires group != []
  {
    var call := if e.Aliased? then e.expr else e;
    match call
    case Aggregate(func, arg, _) => v == AggregateOver(h, func, arg, group, schema)
    case _ => Eval(h, call, group[0], schema) == Ok(v)
  }

  ghost predicate IsGroupRow(h: Host, es: seq<Expr>, group: seq<Record>, schema: Schema, row: Record) {
    && group != [] && |row| == |es|
    && forall k :: 0 <= k < |es| ==> IsGroupCell(h, es[k], group, schema, row[k])
  }

  /** A grouped SELECT whose cells the theorem speaks of. */
  ghost predicate HasGroupItems(h: Host, s: SelectQuery) {
    && (forall k :: 0 <= k < |s.projections| ==> IsGroupItem(s.groupBy, s.projections[k]))
    && DistinctNames(AggregateSchema(h, s.groupBy, AggregateProjections(s.projections)))
  }

  lemma AggregatePosition(h: Host, groups: seq<Expr>, aggs: seq<Expr>, e: Expr, j: nat)
    requires DistinctNames(AggregateSchema(h, groups, aggs)) && j < |aggs| && aggs[j] == e
    ensures IndexOf(AggregateSchema(h, groups, aggs), DisplayName(h, e)) == Some(|groups| + j)
  {
    hide DisplayName;
    var inner := AggregateSchema(h, groups, aggs);
    assert inner[|groups| + j] == OutputField(h, e);
    IndexOfOwnPosition(inner, |groups| + j);
  }

  lemma GroupPosition(h: Host, groups: seq<Expr>, aggs: seq<Expr>, c: string, j: nat)
    requires DistinctNames(AggregateSchema(h, groups, aggs)) && j < |groups| && groups[j] == Column(c)
    ensures IndexOf(AggregateSchema(h, groups, aggs), c) == Some(j)
  {
    var inner := AggregateSchema(h, groups, aggs);
    assert inner[j] == OutputField(h, Column(c));
    IndexOfOwnPosition(inner, j);
  }

  /** A group column reads in the aggregated row as in the group's first row. */
  lemma GroupColumnReads(h: Host, groups: seq<Expr>, aggs: seq<Expr>, rows: seq<Record>, schema: Schema,
                         ms: seq<Digest>, c: string)
    requires Digested(h, groups, aggs, rows, schema, ms) && ms != []
    requires DistinctNames(AggregateSchema(h, groups, aggs)) && Column(c) in groups
    ensures Lookup(AggregateSchema(h, groups, aggs), c, GroupRow(h, aggs, ms)) == Lookup(schema, c, rows[0])
  {
    hide GroupRow, Digested, AggregateSchema, DistinctNames;
    var j :| 0 <= j < |groups| && groups[j] == Column(c);
    GroupPosition(h, groups, aggs, c, j);
    DigestedWidth(h, groups, aggs, rows, schema, ms);
    GroupCell(h, groups, aggs, rows, schema, ms, j);
  }

  lemma DigestedWidth(h: Host, groups: seq<Expr>, aggs: seq<Expr>, rows: seq<Record>, schema: Schema, ms: seq<Digest>)
    requires Digested(h, groups, aggs, rows, schema, ms) && ms != []
    ensures rows != [] && |ms[0].values| == |groups|
  {
    assert RowDigest(h, groups, aggs, rows[0], schema) == Ok(ms[0]);
    EvalAllWidth(h, groups, rows[0], schema);
  }

  /** The cell that an item contributes to its group's projected row. */
  lemma ItemIsGroupCell(h: Host, s: SelectQuery, rows: seq<Record>, schema: Schema, ms: seq<Digest>, k: nat, v: Value)
    requires k < |s.projections| && HasGroupItems(h, s) && ms != []
    requires Digested(h, s.groupBy, AggregateProjections(s.projections), rows, schema, ms)
    requires ProjectItem(h, s.projections[k], GroupRow(h, AggregateProjections(s.projections), ms),
                         AggregateSchema(h, s.groupBy, AggregateProjections(s.projections))) == Ok([v])
    ensures rows != [] && IsGroupCell(h, s.projections[k], rows, schema, v)
  {
    hide GroupRow, Digested, AggregateSchema, DistinctNames, DisplayName, AggregateProjections, AggregateOver, Eval;
    var e, aggs := s.projections[k], AggregateProjections(s.projections);
    var inner := AggregateSchema(h, s.groupBy, aggs);
    var call := if e.Aliased? then e.expr else e;
    assert IsGroupItem(s.groupBy, e);
    DigestedWidth(h, s.groupBy, aggs, rows, schema, ms);
    if call.Aggregate? {
      AggregateProjectionsHave(s.projections, e);
      var j :| 0 <= j < |aggs| && aggs[j] == e;
      AggregatePosition(h, s.groupBy, aggs, e, j);
      AggregateCell(h, s.groupBy, aggs, rows, schema, ms, j, call);
    } else {
      forall c | c in ColumnLeaves(call)
        ensures Lookup(inner, c, GroupRow(h, aggs, ms)) == Lookup(schema, c, rows[0])
      {
        GroupColumnReads(h, s.groupBy, aggs, rows, schema, ms, c);
      }
      EvalReadsColumns(h, call, inner, GroupRow(h, aggs, ms), schema, rows[0]);
    }
  }

  /** What the nodes of a grouped plan without HAVING compute. */
  lemma PlainGroupsUnfold(env: Env, input: Plan, s: SelectQuery, b: Batch, fb: Batch) returns (ds: seq<Digest>)
    requires s.having.None? && s.projections != [Star]
    requires Denote(input, env) == Ok(b) && Denote(GroupedPlan(env.host, input, s), env) == Ok(fb)
    ensures Digests(env.host, s.groupBy, AggregateProjections(s.projections), b.records, b.schema) == Ok(ds)
    ensures ProjectedGroups(env.host, s.groupBy, s.projections, ds) == Ok(fb.records)
  {
    hide Denote, AggregateProjections, Digests, GroupRows, ProjectRows, AggregateSchema, ProjectSchema, ValidBatch,
        AllFit;
    var h := env.host;
    var aggs := AggregateProjections(s.projections);
    var inner := AggregateSchema(h, s.groupBy, aggs);
    var grouped := Aggregation(input, s.groupBy, aggs, inner);
    assert GroupedPlan(h, input, s) == Project(grouped, s.projections, OutputOf(h, s.groupBy, s.projections));
    ProjectUnfolds(grouped, s.projections, OutputOf(h, s.groupBy, s.projections), env);
    AggregationUnfolds(input, s.groupBy, aggs, inner, env);
    ds := Digests(h, s.groupBy, aggs, b.records, b.schema).value;
  }

  lemma GroupItemsAreNotStar(h: Host, s: SelectQuery)
    requires HasGroupItems(h, s)
    ensures NoStar(s.projections) && s.projections != [Star]
  {
    forall k | 0 <= k < |s.projections|
      ensures !s.projections[k].Star?
    {
      assert IsGroupItem(s.groupBy, s.projections[k]);
    }
  }

  /** The projected row of the `i`-th key belongs to that key's group. */
  lemma ProjectedGroupIs(h: Host, s: SelectQuery, b: Batch, ds: seq<Digest>, i: nat)
    requires HasGroupItems(h, s)
    requires Digested(h, s.groupBy, AggregateProjections(s.projections), b.records, b.schema, ds)
    requires ProjectedGroups(h, s.groupBy, s.projections, ds).Ok? && i < |OrderedKeys(h, ds)|
    ensures |ProjectedGroups(h, s.groupBy, s.projections, ds).value| == |OrderedKeys(h, ds)|
    ensures IsGroupRow(h, s.projections, Group(h, s.groupBy, b, OrderedKeys(h, ds)[i]), b.schema,
                       ProjectedGroups(h, s.groupBy, s.projections, ds).value[i])
  {
    hide AggregateProjections, AggregateSchema, ProjectValues, OrderedKeys, GroupRow, ProjectedGroups, IsGroupCell,
        Members, MemberRows, Group, RowDigest, HasGroupItems, ProjectItem;
    var aggs, key := AggregateProjections(s.projections), OrderedKeys(h, ds)[i];
    ProjectedGroupAt(h, s.groupBy, s.projections, ds, i);
    var ms, rows := Members(h, ds, key), MemberRows(h, b.records, ds, key);
    var inner, row := AggregateSchema(h, s.groupBy, aggs), ProjectedGroups(h, s.groupBy, s.projections, ds).value[i];
    GroupItemsAreNotStar(h, s);
    KeyHasMembers(h, ds, i);
    MembersDigested(h, s.groupBy, aggs, b.records, b.schema, ds, key);
    MembersAreGroup(h, s.groupBy, aggs, b, ds, key);
    DigestedWidth(h, s.groupBy, aggs, rows, b.schema, ms);
    forall k | 0 <= k < |s.projections|
      ensures k < |row| && IsGroupCell(h, s.projections[k], rows, b.schema, row[k])
    {
      ProjectValuesAt(h, s.projections, GroupRow(h, aggs, ms), inner, k);
      ItemIsGroupCell(h, s, rows, b.schema, ms, k, row[k]);
    }
    ProjectedWidth(h, s.projections, GroupRow(h, aggs, ms), inner);
  }

  lemma ProjectedWidth(h: Host, es: seq<Expr>, row: Record, schema: Schema)
    requires NoStar(es) && ProjectValues(h, es, row, schema).Ok?
    ensures |ProjectValues(h, es, row, schema).value| == |es|
  {
    if es != [] {
      ProjectValuesAt(h, es, row, schema, 0);
    }
  }

  lemma GroupedSelectPlan(h: Host, s: SelectQuery, catalog: Catalog)
    requires IsGrouped(s) && FilteredPlan(s, catalog).Ok?
    ensures PlanSelect(h, s, catalog) == Ok(GroupedPlan(h, FilteredPlan(s, catalog).value, s))
  {
    hide ContainsAggregate, FromPlan, AggregateProjections, GroupedPlan;
    AggregatesShow(s.projections);
  }

  lemma GroupedInput(env: Env, input: Plan, s: SelectQuery)
    requires Denote(GroupedPlan(env.host, input, s), env).Ok?
    ensures Denote(input, env).Ok?
  {
    var projected := GroupedPlan(env.host, input, s.(having := None));
    if s.having.Some? {
      ChildSucceeds(GroupedPlan(env.host, input, s), env);
    }
    ChildSucceeds(projected, env);
    ChildSucceeds(projected.input, env);
  }

  /** The groups of a row batch, and the projected row of each. */
  ghost predicate AreGroupRows(h: Host, s: SelectQuery, b: Batch, keys: seq<Key>, projected: seq<Record>) {
    && |projected| == |keys|
    && forall i :: 0 <= i < |keys| ==>
         IsGroupRow(h, s.projections, Group(h, s.groupBy, b, keys[i]), b.schema, projected[i])
  }

  lemma GroupRowsAre(h: Host, s: SelectQuery, b: Batch, ds: seq<Digest>, projected: seq<Record>)
    requires HasGroupItems(h, s)
    requires Digests(h, s.groupBy, AggregateProjections(s.projections), b.records, b.schema) == Ok(ds)
    requires ProjectedGroups(h, s.groupBy, s.projections, ds) == Ok(projected)
    ensures AreKeys(h, s.groupBy, b, OrderedKeys(h, ds)) && AreGroupRows(h, s, b, OrderedKeys(h, ds), projected)
  {
    hide AggregateProjections, Digests, ProjectedGroups, OrderedKeys, IsGroupRow, Group, AreKeys, HasGroupItems,
        Digested;
    DigestsAreDigested(h, s.groupBy, AggregateProjections(s.projections), b.records, b.schema, ds);
    KeysAreListed(h, s.groupBy, AggregateProjections(s.projections), b, ds);
    ProjectedGroupCount(h, s.groupBy, s.projections, ds, projected);
    forall i | 0 <= i < |OrderedKeys(h, ds)|
      ensures IsGroupRow(h, s.projections, Group(h, s.groupBy, b, OrderedKeys(h, ds)[i]), b.schema, projected[i])
    {
      ProjectedGroupIs(h, s, b, ds, i);
    }
  }

  /** The groups on which the HAVING condition, as written, is true. */
  ghost function Satisfying(h: Host, s: SelectQuery, e: Expr, b: Batch, keys: seq<Key>): (flags: seq<bool>)
    ensures |flags| == |keys|
    ensures forall i :: 0 <= i < |keys| ==>
      flags[i] == var g := Group(h, s.groupBy, b, keys[i]); (g != [] && GroupTruth(h, e, g, b.schema) == Ok(true))
  {
    seq(|keys|, i requires 0 <= i < |keys| =>
      var g := Group(h, s.groupBy, b, keys[i]); g != [] && GroupTruth(h, e, g, b.schema) == Ok(true))
  }

  /** A grouped SELECT returns one row per key of the rows that WHERE keeps, in increasing key order; each cell is the
      item's value for the key's rows. HAVING keeps those of the groups on which its condition is true. */
  lemma GroupedSelectRows(env: Env, s: SelectQuery, catalog: Catalog, ts: Tables, out: Batch)
    returns (keys: seq<Key>, projected: seq<Record>)
    requires Scanned(s.from, catalog, env, ts) && IsGrouped(s) && HasGroupItems(env.host, s)
    requires s.having.Some? ==> Claimed(env.host, s.groupBy, s.projections, s.having.value)
    requires RunSelect(env, s, catalog) == Ok(out)
    ensures var kept := Batch(Supplied(ts).schema, Where(env.host, s.selection, Supplied(ts)));
      && AreKeys(env.host, s.groupBy, kept, keys)
      && AreGroupRows(env.host, s, kept, keys, projected)
      && out.records == match s.having
                        case None => projected
                        case Some(e) => Select(projected, Satisfying(env.host, s, e, kept, keys))
  {
    hide Denote, Supplied, Where, Scanned, PlanSelect, FilteredPlan, Select, HasGroupItems, Claimed, AreKeys,
        GroupedPlan, ProjectedGroups, Digests, OrderedKeys, Group, GroupTruth, AggregateProjections, IsGroupRow;
    var h := env.host;
    FilteredYields(env, s, catalog, ts);
    GroupedSelectPlan(h, s, catalog);
    var input := FilteredPlan(s, catalog).value;
    GroupedInput(env, input, s);
    var kept := Denote(input, env).value;
    GroupItemsAreNotStar(h, s);
    var ds: seq<Digest>;
    match s.having {
      case None =>
        ds := PlainGroupsUnfold(env, input, s, kept, out);
        projected := out.records;
      case Some(e) =>
        ds, projected := PlannedHaving(env, input, s, e, kept, out);
    }
    keys := OrderedKeys(h, ds);
    GroupRowsAre(h, s, kept, ds, projected);
    if s.having.Some? {
      SatisfyingGroups(h, s, s.having.value, kept, ds);
      assert Satisfying(h, s, s.having.value, kept, keys)
          == seq(|projected|, i requires 0 <= i < |projected| =>
               GroupTruth(h, s.having.value, GroupAt(h, kept.records, ds, i), kept.schema) == Ok(true));
    }
  }

  lemma SatisfyingGroups(h: Host, s: SelectQuery, e: Expr, b: Batch, ds: seq<Digest>)
    requires Digests(h, s.groupBy, AggregateProjections(s.projections), b.records, b.schema) == Ok(ds)
    requires |b.records| == |ds|
    requires forall i :: 0 <= i < |OrderedKeys(h, ds)| ==> GroupAt(h, b.records, ds, i) != []
    ensures Satisfying(h, s, e, b, OrderedKeys(h, ds))
         == seq(|OrderedKeys(h, ds)|, i requires 0 <= i < |OrderedKeys(h, ds)| =>
              GroupTruth(h, e, GroupAt(h, b.records, ds, i), b.schema) == Ok(true))
  {
    hide AggregateProjections, Digests, OrderedKeys, Group, GroupTruth, MemberRows, Digested;
    DigestsAreDigested(h, s.groupBy, AggregateProjections(s.projections), b.records, b.schema, ds);
    forall i | 0 <= i < |OrderedKeys(h, ds)|
      ensures GroupAt(h, b.records, ds, i) == Group(h, s.groupBy, b, OrderedKeys(h, ds)[i])
    {
      MembersAreGroup(h, s.groupBy, AggregateProjections(s.projections), b, ds, OrderedKeys(h, ds)[i]);
    }
  }

  /** Grouping no rows gives no rows: COUNT(*) of an empty table is no row, not zero. */
  lemma NothingGroupsToNothing(env: Env, s: SelectQuery, catalog: Catalog, ts: Tables, out: Batch)
    requires Scanned(s.from, catalog, env, ts) && IsGrouped(s) && HasGroupItems(env.host, s) && s.having.None?
    requires RunSelect(env, s, catalog) == Ok(out) && Where(env.host, s.selection, Supplied(ts)) == []
    ensures out.records == []
  {
    hide RunSelect, HasGroupItems, Scanned, Where, Supplied, KeyListed, KeyBelow, HasKey, IsGroupRow;
    var keys, projected := GroupedSelectRows(env, s, catalog, ts, out);
    NoRowsNoKeys(env.host, s.groupBy, Batch(Supplied(ts).schema, []), keys);
  }

  lemma GroupOfNothing(h: Host, groupBy: seq<Expr>, b: Batch, key: Key)
    requires b.records == []
    ensures Group(h, groupBy, b, key) == []
  {
    assert |Group(h, groupBy, b, key)| == 0;
  }

  lemma NoRowsNoKeys(h: Host, groupBy: seq<Expr>, b: Batch, keys: seq<Key>)
    requires b.records == [] && AreKeys(h, groupBy, b, keys)
    ensures keys == []
  {
    if keys != [] {
      GroupOfNothing(h, groupBy, b, keys[0]);
      assert false;
    }
  }

  /** A SELECT without FROM returns no row. */
  lemma SelectWithoutFrom(env: Env, s: SelectQuery, catalog: Catalog, out: Batch)
    requires s.from == [] && !IsGrouped(s) && RunSelect(env, s, catalog) == Ok(out)
    ensures out.records == []
  {
    hide RunSelect, ProjectSchema, IsGrouped;
    assert Scanned(s.from, catalog, env, []);
    var projected := SelectRows(env, s, catalog, [], out);
  }

  // ----- UNION, ORDER BY, LIMIT -----

  /** UNION appends the right rows to the left ones, duplicates kept. */
  lemma UnionRows(env: Env, l: SetExpr, r: SetExpr, catalog: Catalog, out: Batch)
    requires RunBody(env, UnionBody(l, r), catalog) == Ok(out)
    ensures RunBody(env, l, catalog).Ok? && RunBody(env, r, catalog).Ok?
    ensures var lb, rb := RunBody(env, l, catalog).value, RunBody(env, r, catalog).value;
      out.schema == lb.schema == rb.schema && out.records == lb.records + rb.records
  {
    hide PlanSelect, PlanQuery;
    var lp, rp := PlanSetExpr(env.host, l, catalog).value, PlanSetExpr(env.host, r, catalog).value;
    UnionOfTwo(env, lp, rp, OutputSchema(lp), out);
  }

  lemma UnionOfTwo(env: Env, lp: Plan, rp: Plan, schema: Schema, out: Batch)
    requires Denote(Union([lp, rp], schema), env) == Ok(out)
    ensures Denote(lp, env).Ok? && Denote(rp, env).Ok?
    ensures var lb, rb := Denote(lp, env).value, Denote(rp, env).value;
      out.schema == lb.schema == rb.schema && out.records == lb.records + rb.records
  {
    var inputs, none := [lp, rp], Batch(schema, []);
    UnionConcatenates(inputs, env, none);
    UnionDenotes(inputs, schema, env);
    assert inputs[0] == lp && inputs[1] == rp;
    assert inputs[1..] == [rp] && [rp][1..] == [];
    assert Concatenated([rp], env) == Denote(rp, env).value.records + Concatenated([], env);
  }

  lemma UnionDenotes(inputs: seq<Plan>, schema: Schema, env: Env)
    ensures Denote(Union(inputs, schema), env) == DenoteUnion(inputs, env, Batch(schema, []))
  {
  }

  /** The rows in the order that ORDER BY asks for; without it, as they come. */
  ghost predicate OrderedBy(h: Host, order: seq<SortExpr>, b: Batch, rows: seq<Record>) {
    if order == [] then rows == b.records else IsOrdering(h, order, b.schema, b.records, rows)
  }

  /** A query returns the body's rows in the order of ORDER BY, cut off at LIMIT. */
  lemma QueryRows(env: Env, q: Query, catalog: Catalog, b: Batch, out: Batch) returns (rows: seq<Record>)
    requires RunQuery(env, q, catalog) == Ok(out) && RunBody(env, q.body, catalog) == Ok(b)
    requires q.orderBy != [] ==> LibraryIsStable(env.host) && Sortable(env.host, q.orderBy, b.records, b.schema)
    ensures OrderedBy(env.host, q.orderBy, b, rows)
    ensures out.records == match q.limit case None => rows case Some(n) => Top(rows, n)
  {
    hide Denote, PlanSetExpr, Sortable, LibraryIsStable, IsOrdering;
    var body := PlanSetExpr(env.host, q.body, catalog).value;
    var sorted := if q.orderBy != [] then Sort(body, q.orderBy, OutputSchema(body)) else body;
    if q.limit.Some? {
      ChildSucceeds(Limit(sorted, q.limit.value, OutputSchema(sorted)), env);
    }
    rows := Denote(sorted, env).value.records;
    if q.orderBy != [] {
      SortReturns(env, body, q.orderBy, OutputSchema(body), b);
    }
    if q.limit.Some? {
      LimitNode(sorted, q.limit.value, OutputSchema(sorted), env, Denote(sorted, env).value, out);
    }
  }

  lemma SortReturns(env: Env, input: Plan, order: seq<SortExpr>, schema: Schema, b: Batch)
    requires LibraryIsStable(env.host) && Sortable(env.host, order, b.records, b.schema)
    requires Denote(input, env) == Ok(b) && Denote(Sort(input, order, schema), env).Ok?
    ensures IsOrdering(env.host, order, b.schema, b.records, Denote(Sort(input, order, schema), env).value.records)
  {
    hide Denote, Sortable, LibraryIsStable, IsOrdering, SortedRows;
    SortedRowsAreOrdered(env.host, order, b.records, b.schema);
    SortUnfolds(env, input, order, schema, b);
  }

  /** A query whose body fails, fails with the body's error. */
  lemma FailingBodyFails(env: Env, q: Query, catalog: Catalog)
    requires RunBody(env, q.body, catalog).Err?
    ensures RunQuery(env, q, catalog) == Err(RunBody(env, q.body, catalog).error)
  {
    hide Denote, PlanSetExpr;
    var body := PlanSetExpr(env.host, q.body, catalog);
    if body.Ok? {
      var sort := Sort(body.value, q.orderBy, OutputSchema(body.value));
      ChildFails(sort, env);
      var sorted := if q.orderBy != [] then sort else body.value;
      if q.limit.Some? {
        ChildFails(Limit(sorted, q.limit.value, OutputSchema(sorted)), env);
      }
    }
  }

  lemma ChildFails(p: Plan, env: Env)
    requires FirstChild(p).Some? && !p.Union? && Denote(FirstChild(p).value, env).Err?
    ensures Denote(p, env) == Err(Denote(FirstChild(p).value, env).error)
  {
  }
}
