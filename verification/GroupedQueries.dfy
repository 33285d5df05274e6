/** When a grouped SELECT succeeds (crates/rspark-exec/src/operators.rs:304-461,
    crates/rspark-sql/src/planner.rs:129-158), said of its tables and not of the plan. */
module GroupedQueries {
  import opened Results
  import opened Values
  import opened Records
  import opened Expressions
  import opened Plans
  import opened Orders
  import opened Subsequences
  import opened Operators
  import opened Aggregating
  import opened Executor
  import opened Planner
  import opened NaturalJoins
  import opened Having
  import opened Nodes
  import opened Queries
  import Shapes

  function Unaliased(e: Expr): Expr {
    if e.Aliased? then e.expr else e
  }

  /** The item's aggregate, if it is one, has a value for its argument. */
  ghost predicate ArgumentWorks(h: Host, e: Expr, row: Record, schema: Schema) {
    Unaliased(e).Aggregate? ==> Eval(h, Unaliased(e).arg, row, schema).Ok?
  }

  /** The row has group values, and arguments for all aggregates. */
  ghost predicate RowWorks(h: Host, s: SelectQuery, row: Record, schema: Schema) {
    && (forall k :: 0 <= k < |s.groupBy| ==> Eval(h, s.groupBy[k], row, schema).Ok?)
    && (forall k :: 0 <= k < |s.projections| ==> ArgumentWorks(h, s.projections[k], row, schema))
  }

  ghost predicate ItemWorksOn(h: Host, e: Expr, row: Record, schema: Schema) {
    Unaliased(e).Aggregate? || Eval(h, Unaliased(e), row, schema).Ok?
  }

  /** The items have values for the group, and HAVING has a truth value. */
  ghost predicate GroupWorks(h: Host, s: SelectQuery, group: seq<Record>, schema: Schema)
    requires group != []
  {
    && (forall k :: 0 <= k < |s.projections| ==> ItemWorksOn(h, s.projections[k], group[0], schema))
    && (s.having.Some? ==> GroupTruth(h, s.having.value, group, schema).Ok?)
  }

  // ----- the aggregation node -----

  lemma {:induction false} EvalAllWorks(h: Host, es: seq<Expr>, row: Record, schema: Schema)
    ensures EvalAll(h, es, row, schema).Ok? <==> forall k :: 0 <= k < |es| ==> Eval(h, es[k], row, schema).Ok?
  {
    hide Eval;
    if es != [] {
      EvalAllWorks(h, es[1..], row, schema);
      assert forall k :: 1 <= k < |es| ==> es[k] == es[1..][k - 1];
    }
  }

  lemma EvalArgsCons(h: Host, e: Expr, rest: seq<Expr>, row: Record, schema: Schema)
    ensures EvalArgs(h, [e] + rest, row, schema).Ok?
       <==> ArgumentWorks(h, e, row, schema) && EvalArgs(h, rest, row, schema).Ok?
  {
    hide Eval;
    assert ([e] + rest)[1..] == rest;
  }

  lemma {:induction false} ArgumentsWork(h: Host, projections: seq<Expr>, row: Record, schema: Schema)
    ensures EvalArgs(h, AggregateProjections(projections), row, schema).Ok?
       <==> forall k :: 0 <= k < |projections| ==> ArgumentWorks(h, projections[k], row, schema)
  {
    hide EvalArgs, ArgumentWorks;
    if projections == [] {
      NoArguments(h, row, schema);
    } else {
      var e, rest := projections[0], AggregateProjections(projections[1..]);
      ArgumentsWork(h, projections[1..], row, schema);
      assert forall k :: 1 <= k < |projections| ==> projections[k] == projections[1..][k - 1];
      if ContainsAggregate(e) {
        EvalArgsCons(h, e, rest, row, schema);
      } else {
        NoAggregateWorks(h, e, row, schema);
        assert AggregateProjections(projections) == rest;
      }
    }
  }

  lemma NoArguments(h: Host, row: Record, schema: Schema)
    ensures EvalArgs(h, [], row, schema) == Ok([])
  {
  }

  lemma NoAggregateWorks(h: Host, e: Expr, row: Record, schema: Schema)
    requires !ContainsAggregate(e)
    ensures ArgumentWorks(h, e, row, schema)
  {
  }

  lemma DigestWorks(h: Host, s: SelectQuery, row: Record, schema: Schema)
    ensures RowDigest(h, s.groupBy, AggregateProjections(s.projections), row, schema).Ok?
       <==> RowWorks(h, s, row, schema)
  {
    hide EvalAll, EvalArgs, ArgumentWorks;
    EvalAllWorks(h, s.groupBy, row, schema);
    ArgumentsWork(h, s.projections, row, schema);
  }

  lemma {:induction false} DigestsWork(h: Host, s: SelectQuery, rows: seq<Record>, schema: Schema)
    ensures Digests(h, s.groupBy, AggregateProjections(s.projections), rows, schema).Ok?
       <==> forall i :: 0 <= i < |rows| ==> RowWorks(h, s, rows[i], schema)
  {
    hide RowDigest, RowWorks, AggregateProjections;
    if rows != [] {
      DigestWorks(h, s, rows[0], schema);
      DigestsWork(h, s, rows[1..], schema);
      assert forall i :: 1 <= i < |rows| ==> rows[i] == rows[1..][i - 1];
    }
  }

  ghost function AggregationOf(h: Host, input: Plan, s: SelectQuery): Plan {
    var aggs := AggregateProjections(s.projections);
    Aggregation(input, s.groupBy, aggs, AggregateSchema(h, s.groupBy, aggs))
  }

  /** The aggregation succeeds when every row does, and returns one row per key. */
  lemma AggregationWorks(env: Env, input: Plan, s: SelectQuery, b: Batch)
    requires Denote(input, env) == Ok(b)
    ensures var aggs := AggregateProjections(s.projections);
      var ds := Digests(env.host, s.groupBy, aggs, b.records, b.schema);
      var r := Denote(AggregationOf(env.host, input, s), env);
      && (r.Ok? <==> forall i :: 0 <= i < |b.records| ==> RowWorks(env.host, s, b.records[i], b.schema))
      && (r.Ok? <==> ds.Ok?)
      && (r.Ok? ==> ValidBatch(r.value) && r.value.records == GroupRows(env.host, aggs, ds.value)
                    && r.value.schema == AggregateSchema(env.host, s.groupBy, aggs))
  {
    hide Denote, Digests, GroupRows, RowWorks, AggregateProjections, AggregateSchema;
    var aggs := AggregateProjections(s.projections);
    AggregationUnfolds(input, s.groupBy, aggs, AggregateSchema(env.host, s.groupBy, aggs), env);
    DigestsWork(env.host, s, b.records, b.schema);
    Shapes.AggregateFits(env.host, s.groupBy, aggs, b.records, b.schema);
  }

  // ----- the projection node -----

  /** An item has a cell in its group's row when it has a value for the group. */
  lemma ItemWorksIff(h: Host, s: SelectQuery, rows: seq<Record>, schema: Schema, ms: seq<Digest>, k: nat)
    requires k < |s.projections| && HasGroupItems(h, s) && ms != [] && rows != []
    requires Digested(h, s.groupBy, AggregateProjections(s.projections), rows, schema, ms)
    ensures HasCells(h, s.projections[k], GroupRow(h, AggregateProjections(s.projections), ms),
                     AggregateSchema(h, s.groupBy, AggregateProjections(s.projections)))
       <==> ItemWorksOn(h, s.projections[k], rows[0], schema)
  {
    hide GroupRow, Digested, AggregateSchema, DistinctNames, DisplayName, AggregateProjections, Eval, HasCells;
    var e, aggs := s.projections[k], AggregateProjections(s.projections);
    var inner := AggregateSchema(h, s.groupBy, aggs);
    assert IsGroupItem(s.groupBy, e);
    ItemWorks(h, e, GroupRow(h, aggs, ms), inner);
    if Unaliased(e).Aggregate? {
      AggregateProjectionsHave(s.projections, e);
      var j :| 0 <= j < |aggs| && aggs[j] == e;
      AggregatePosition(h, s.groupBy, aggs, e, j);
    } else {
      forall c | c in ColumnLeaves(Unaliased(e))
        ensures Lookup(inner, c, GroupRow(h, aggs, ms)) == Lookup(schema, c, rows[0])
      {
        GroupColumnReads(h, s.groupBy, aggs, rows, schema, ms, c);
      }
      EvalReadsColumns(h, Unaliased(e), inner, GroupRow(h, aggs, ms), schema, rows[0]);
      PlainItem(h, e, GroupRow(h, aggs, ms), inner);
    }
  }

  lemma PlainItem(h: Host, e: Expr, row: Record, schema: Schema)
    requires !e.Star? && !Unaliased(e).Aggregate?
    ensures ProjectItem(h, e, row, schema).Ok? <==> Eval(h, Unaliased(e), row, schema).Ok?
  {
    hide Eval, Lookup;
  }

  ghost predicate ItemsWorkOn(h: Host, s: SelectQuery, group: seq<Record>, schema: Schema)
    requires group != []
  {
    forall k :: 0 <= k < |s.projections| ==> ItemWorksOn(h, s.projections[k], group[0], schema)
  }

  /** The row of the `i`-th key against the key's group. */
  lemma KeyWorks(h: Host, s: SelectQuery, b: Batch, ds: seq<Digest>, i: nat)
    requires HasGroupItems(h, s) && i < |OrderedKeys(h, ds)|
    requires Digested(h, s.groupBy, AggregateProjections(s.projections), b.records, b.schema, ds)
    ensures Group(h, s.groupBy, b, OrderedKeys(h, ds)[i]) != []
    ensures ItemsWork(h, s.projections,
                      GroupRow(h, AggregateProjections(s.projections), Members(h, ds, OrderedKeys(h, ds)[i])),
                      AggregateSchema(h, s.groupBy, AggregateProjections(s.projections)))
       <==> ItemsWorkOn(h, s, Group(h, s.groupBy, b, OrderedKeys(h, ds)[i]), b.schema)
  {
    hide AggregateProjections, AggregateSchema, OrderedKeys, GroupRow, Members, MemberRows, Group, RowDigest,
        HasGroupItems, HasCells, ItemWorksOn;
    var aggs, key := AggregateProjections(s.projections), OrderedKeys(h, ds)[i];
    var ms, rows := Members(h, ds, key), MemberRows(h, b.records, ds, key);
    KeyHasMembers(h, ds, i);
    MembersDigested(h, s.groupBy, aggs, b.records, b.schema, ds, key);
    MembersAreGroup(h, s.groupBy, aggs, b, ds, key);
    forall k | 0 <= k < |s.projections|
      ensures HasCells(h, s.projections[k], GroupRow(h, aggs, ms), AggregateSchema(h, s.groupBy, aggs))
         <==> ItemWorksOn(h, s.projections[k], rows[0], b.schema)
    {
      ItemWorksIff(h, s, rows, b.schema, ms, k);
    }
  }

  /** A key with a group is listed. */
  lemma GroupIsListed(h: Host, groups: seq<Expr>, aggs: seq<Expr>, b: Batch, ds: seq<Digest>, key: Key)
    requires Digested(h, groups, aggs, b.records, b.schema, ds) && Group(h, groups, b, key) != []
    ensures key in OrderedKeys(h, ds)
  {
    hide RowDigest, KeyOf, OrderedKeys, Group;
    MembersAreGroup(h, groups, aggs, b, ds, key);
    MembersDigested(h, groups, aggs, b.records, b.schema, ds, key);
    MembersExist(h, ds, key);
    OrderedKeysSpec(h, ds);
    assert key in Elements(OrderedKeys(h, ds));
  }

  ghost function ProjectionOf(h: Host, input: Plan, s: SelectQuery): Plan {
    ProjectNode(h, AggregationOf(h, input, s), s.projections)
  }

  /** Once aggregated, the rows can be projected if and only if the items have values for every group. */
  lemma ProjectionOfGroupsWorks(env: Env, input: Plan, s: SelectQuery, b: Batch, ds: seq<Digest>)
    requires HasGroupItems(env.host, s) && Denote(input, env) == Ok(b)
    requires Digests(env.host, s.groupBy, AggregateProjections(s.projections), b.records, b.schema) == Ok(ds)
    ensures Digested(env.host, s.groupBy, AggregateProjections(s.projections), b.records, b.schema, ds)
    ensures forall i :: 0 <= i < |OrderedKeys(env.host, ds)| ==>
      Group(env.host, s.groupBy, b, OrderedKeys(env.host, ds)[i]) != []
    ensures Denote(ProjectionOf(env.host, input, s), env).Ok?
       <==> forall i :: 0 <= i < |OrderedKeys(env.host, ds)| ==>
              ItemsWorkOn(env.host, s, Group(env.host, s.groupBy, b, OrderedKeys(env.host, ds)[i]), b.schema)
  {
    hide Denote, Digests, AggregateProjections, AggregateSchema, OrderedKeys, GroupRow, Members, Group, HasGroupItems,
        ItemsWork, ItemsWorkOn, Digested, ValidBatch, ProjectSchema;
    var h, aggs, keys := env.host, AggregateProjections(s.projections), OrderedKeys(env.host, ds);
    DigestsAreDigested(h, s.groupBy, aggs, b.records, b.schema, ds);
    AggregationWorks(env, input, s, b);
    var grouped := Denote(AggregationOf(h, input, s), env).value;
    ProjectNodeWorks(AggregationOf(h, input, s), s.projections, env, grouped);
    RowsOfKeysCount(h, aggs, ds, keys);
    forall i | 0 <= i < |keys|
      ensures grouped.records[i] == GroupRow(h, aggs, Members(h, ds, keys[i]))
      ensures Group(h, s.groupBy, b, keys[i]) != []
      ensures ItemsWork(h, s.projections, grouped.records[i], grouped.schema)
         <==> ItemsWorkOn(h, s, Group(h, s.groupBy, b, keys[i]), b.schema)
    {
      RowsOfKeysAt(h, aggs, ds, keys, i);
      KeyWorks(h, s, b, ds, i);
    }
  }

  // ----- the HAVING filter -----

  lemma GroupedPlanIs(h: Host, input: Plan, s: SelectQuery)
    ensures GroupedPlan(h, input, s)
         == match s.having
            case None => ProjectionOf(h, input, s)
            case Some(e) =>
              Filter(ProjectionOf(h, input, s), RewriteHaving(e, s.projections), OutputOf(h, s.groupBy, s.projections))
  {
    hide AggregateProjections, AggregateSchema, ProjectSchema, RewriteHaving;
  }

  lemma ProjectedRowsAre(env: Env, input: Plan, s: SelectQuery, b: Batch, ds: seq<Digest>)
    requires HasGroupItems(env.host, s) && Denote(input, env) == Ok(b)
    requires Digests(env.host, s.groupBy, AggregateProjections(s.projections), b.records, b.schema) == Ok(ds)
    requires Denote(ProjectionOf(env.host, input, s), env).Ok?
    ensures var out := Denote(ProjectionOf(env.host, input, s), env).value;
      && ValidBatch(out) && out.schema == OutputOf(env.host, s.groupBy, s.projections)
      && ProjectedGroups(env.host, s.groupBy, s.projections, ds) == Ok(out.records)
      && |out.records| == |OrderedKeys(env.host, ds)|
  {
    hide Denote, Digests, ProjectedGroups, AggregateProjections, ValidBatch, GroupedPlan, HasGroupItems, OrderedKeys;
    var plain := s.(having := None);
    var out := Denote(ProjectionOf(env.host, input, s), env).value;
    GroupedPlanIs(env.host, input, plain);
    GroupItemsAreNotStar(env.host, s);
    AggregationWorks(env, input, s, b);
    var same := PlainGroupsUnfold(env, input, plain, b, out);
    ProjectOutput(env, AggregationOf(env.host, input, s), s.projections, OutputOf(env.host, s.groupBy, s.projections),
                  Denote(AggregationOf(env.host, input, s), env).value);
    ProjectedGroupCount(env.host, s.groupBy, s.projections, ds, out.records);
  }

  /** Once projected, HAVING succeeds if and only if its condition, as written, has a truth value for every group. */
  lemma HavingOfGroupsWorks(env: Env, input: Plan, s: SelectQuery, e: Expr, b: Batch, ds: seq<Digest>)
    requires s.having == Some(e) && HasGroupItems(env.host, s) && Claimed(env.host, s.groupBy, s.projections, e)
    requires Denote(input, env) == Ok(b) && Denote(ProjectionOf(env.host, input, s), env).Ok?
    requires Digests(env.host, s.groupBy, AggregateProjections(s.projections), b.records, b.schema) == Ok(ds)
    requires forall i :: 0 <= i < |OrderedKeys(env.host, ds)| ==>
      Group(env.host, s.groupBy, b, OrderedKeys(env.host, ds)[i]) != []
    ensures Denote(GroupedPlan(env.host, input, s), env).Ok?
       <==> forall i :: 0 <= i < |OrderedKeys(env.host, ds)| ==>
              GroupTruth(env.host, e, Group(env.host, s.groupBy, b, OrderedKeys(env.host, ds)[i]), b.schema).Ok?
  {
    hide Denote, Digests, ProjectedGroups, AggregateProjections, AggregateSchema, ValidBatch, GroupedPlan, Claimed,
        HasGroupItems, OrderedKeys, Group, GroupTruth, EvalPredicate, RewriteHaving, OutputOf, Digested, GroupRow,
        Members, MemberRows, ProjectValues, ProjectionOf;
    var h, aggs, keys := env.host, AggregateProjections(s.projections), OrderedKeys(env.host, ds);
    var q, output := RewriteHaving(e, s.projections), OutputOf(h, s.groupBy, s.projections);
    ProjectedRowsAre(env, input, s, b, ds);
    GroupedPlanIs(h, input, s);
    DigestsAreDigested(h, s.groupBy, aggs, b.records, b.schema, ds);
    var out := Denote(ProjectionOf(h, input, s), env).value;
    FilterNodeWorks(ProjectionOf(h, input, s), q, env, out);
    forall i | 0 <= i < |keys|
      ensures EvalPredicate(h, q, out.records[i], output) == GroupTruth(h, e, Group(h, s.groupBy, b, keys[i]), b.schema)
    {
      ProjectedGroupAt(h, s.groupBy, s.projections, ds, i);
      DigestedCount(h, s.groupBy, aggs, b, ds);
      GroupVerdict(h, s.groupBy, s.projections, e, b.records, b.schema, ds, i, out.records[i]);
      MembersAreGroup(h, s.groupBy, aggs, b, ds, keys[i]);
    }
  }

  lemma DigestedCount(h: Host, groups: seq<Expr>, aggs: seq<Expr>, b: Batch, ds: seq<Digest>)
    requires Digested(h, groups, aggs, b.records, b.schema, ds)
    ensures |b.records| == |ds|
  {
  }

  // ----- the whole SELECT -----

  /** Every group of the rows works. */
  ghost predicate GroupsWork(h: Host, s: SelectQuery, b: Batch) {
    forall key: Key :: Group(h, s.groupBy, b, key) != [] ==> GroupWorks(h, s, Group(h, s.groupBy, b, key), b.schema)
  }

  lemma ListedGroupsWork(h: Host, s: SelectQuery, b: Batch, ds: seq<Digest>)
    requires Digested(h, s.groupBy, AggregateProjections(s.projections), b.records, b.schema, ds)
    requires forall i :: 0 <= i < |OrderedKeys(h, ds)| ==> Group(h, s.groupBy, b, OrderedKeys(h, ds)[i]) != []
    ensures GroupsWork(h, s, b)
       <==> forall i :: 0 <= i < |OrderedKeys(h, ds)| ==>
              GroupWorks(h, s, Group(h, s.groupBy, b, OrderedKeys(h, ds)[i]), b.schema)
  {
    hide Digested, OrderedKeys, Group, GroupWorks, AggregateProjections;
    forall key: Key | Group(h, s.groupBy, b, key) != []
      ensures key in OrderedKeys(h, ds)
    {
      GroupIsListed(h, s.groupBy, AggregateProjections(s.projections), b, ds, key);
    }
  }

  /** A grouped SELECT succeeds if and only if its WHERE condition has a truth value on every row of the join, every
      kept row has group values and aggregate arguments, and every group has item values and a truth value of the
      HAVING condition. */
  lemma GroupedSelectSucceeds(env: Env, s: SelectQuery, catalog: Catalog, ts: Tables)
    requires Scanned(s.from, catalog, env, ts) && IsGrouped(s) && HasGroupItems(env.host, s)
    requires s.having.Some? ==> Claimed(env.host, s.groupBy, s.projections, s.having.value)
    ensures var kept := Batch(Supplied(ts).schema, Where(env.host, s.selection, Supplied(ts)));
      RunSelect(env, s, catalog).Ok?
      <==> && ConditionWorks(env.host, s.selection, Supplied(ts))
           && (forall i :: 0 <= i < |kept.records| ==> RowWorks(env.host, s, kept.records[i], kept.schema))
           && GroupsWork(env.host, s, kept)
  {
    hide Denote, Supplied, Where, Scanned, PlanSelect, FilteredPlan, HasGroupItems, Claimed, GroupedPlan,
        ConditionWorks, GroupsWork, RowWorks;
    FilteredYields(env, s, catalog, ts);
    FilteredWorks(env, s, catalog, ts);
    GroupedSelectPlan(env.host, s, catalog);
    var input := FilteredPlan(s, catalog).value;
    if Denote(input, env).Ok? {
      GroupedPlanWorks(env, input, s, Denote(input, env).value);
    } else if Denote(GroupedPlan(env.host, input, s), env).Ok? {
      GroupedInput(env, input, s);
    }
  }

  lemma GroupedPlanWorks(env: Env, input: Plan, s: SelectQuery, b: Batch)
    requires Denote(input, env) == Ok(b) && HasGroupItems(env.host, s)
    requires s.having.Some? ==> Claimed(env.host, s.groupBy, s.projections, s.having.value)
    ensures Denote(GroupedPlan(env.host, input, s), env).Ok?
       <==> && (forall i :: 0 <= i < |b.records| ==> RowWorks(env.host, s, b.records[i], b.schema))
            && GroupsWork(env.host, s, b)
  {
    hide Denote, Digests, AggregateProjections, HasGroupItems, OrderedKeys, Claimed, Group, GroupTruth, RowWorks,
        GroupsWork, ItemWorksOn, GroupedPlan, Digested, GroupRows, ValidBatch, RewriteHaving, OutputOf, AggregateSchema;
    var h := env.host;
    GroupedPlanIs(h, input, s);
    AggregationWorks(env, input, s, b);
    if Denote(GroupedPlan(h, input, s), env).Ok? {
      StagesSucceed(env, input, s);
    }
    var r := Digests(h, s.groupBy, AggregateProjections(s.projections), b.records, b.schema);
    if r.Ok? {
      ProjectionOfGroupsWorks(env, input, s, b, r.value);
      ListedGroupsWork(h, s, b, r.value);
      if s.having.Some? && Denote(ProjectionOf(h, input, s), env).Ok? {
        HavingOfGroupsWorks(env, input, s, s.having.value, b, r.value);
      }
    }
  }

  lemma StagesSucceed(env: Env, input: Plan, s: SelectQuery)
    requires Denote(GroupedPlan(env.host, input, s), env).Ok?
    ensures Denote(ProjectionOf(env.host, input, s), env).Ok? && Denote(AggregationOf(env.host, input, s), env).Ok?
  {
    hide Denote, GroupedPlan;
    GroupedPlanIs(env.host, input, s);
    if s.having.Some? {
      ChildSucceeds(GroupedPlan(env.host, input, s), env);
    }
    ChildSucceeds(ProjectionOf(env.host, input, s), env);
  }
}
