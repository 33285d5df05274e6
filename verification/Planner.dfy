/** From a parsed SELECT to a logical plan (crates/rspark-sql/src/planner.rs). */
module Planner {
  import opened Results
  import opened Values
  import opened Records
  import opened Expressions
  import opened Plans

  datatype TableInfo = TableInfo(path: string, source: string, schema: Schema)

  /** `table_location` and `table_schema` of a catalog. */
  type Catalog = string -> Result<TableInfo>

  /** A SELECT whose SQL expressions have been translated. */
  datatype SelectQuery = SelectQuery(
    from: seq<string>,
    selection: Option<Expr>,
    projections: seq<Expr>,
    groupBy: seq<Expr>,
    having: Option<Expr>,
    distinct: bool)

  datatype SetExpr = SelectBody(select: SelectQuery) | QueryBody(query: Query) | UnionBody(l: SetExpr, r: SetExpr)

  datatype Query = Query(body: SetExpr, orderBy: seq<SortExpr>, limit: Option<nat>)

  // ----- FROM -----

  function TableScan(name: string, catalog: Catalog): Result<Plan> {
    var t :- catalog(name);
    Ok(Scan(name, t.path, t.source, t.schema))
  }

  /** One pair per left field whose name the right side also has. */
  function SharedPairs(left: Schema, right: Schema): JoinPairs {
    if left == [] then []
    else
      var n := |left| - 1;
      SharedPairs(left[..n], right)
      + (if IndexOf(right, left[n].name).Some? then [(left[n].name, left[n].name)] else [])
  }

  /** `join_pairs` */
  method FindJoinPairs(left: Schema, right: Schema) returns (pairs: JoinPairs)
    ensures pairs == SharedPairs(left, right)
  {
    pairs := [];
    for i := 0 to |left|
      invariant pairs == SharedPairs(left[..i], right)
    {
      assert left[..i + 1][..i] == left[..i];
      var r := IndexOf(right, left[i].name);
      if r.Some? {
        pairs := pairs + [(left[i].name, right[r.value].name)];
      }
    }
    assert left[..|left|] == left;
  }

  lemma {:induction false} SharedPairsExact(left: Schema, right: Schema)
    ensures forall k :: 0 <= k < |SharedPairs(left, right)| ==>
              && SharedPairs(left, right)[k].0 == SharedPairs(left, right)[k].1
              && HasColumn(left, SharedPairs(left, right)[k].0) && HasColumn(right, SharedPairs(left, right)[k].0)
    ensures forall c :: HasColumn(left, c) && HasColumn(right, c) ==> IsJoinColumn(SharedPairs(left, right), c)
  {
    if left != [] {
      var n := |left| - 1;
      SharedPairsExact(left[..n], right);
      var before, pairs := SharedPairs(left[..n], right), SharedPairs(left, right);
      forall k | 0 <= k < |pairs|
        ensures pairs[k].0 == pairs[k].1 && HasColumn(left, pairs[k].0) && HasColumn(right, pairs[k].0)
      {
        if k < |before| {
          var i :| 0 <= i < n && left[..n][i].name == before[k].0;
          assert left[i].name == pairs[k].0;
        } else {
          assert left[n].name == pairs[k].0;
        }
      }
      forall c | HasColumn(left, c) && HasColumn(right, c)
        ensures IsJoinColumn(pairs, c)
      {
        var i :| 0 <= i < |left| && left[i].name == c;
        if i < n {
          assert left[..n][i].name == c;
          var k :| 0 <= k < |before| && before[k].0 == c;
          assert pairs[k].0 == c;
        } else {
          assert pairs[|before|].0 == c;
        }
      }
    }
  }

  function JoinNode(left: Plan, right: Plan): Plan {
    var pairs := SharedPairs(OutputSchema(left), OutputSchema(right));
    Join(left, right, pairs, Inner, JoinSchema(OutputSchema(left), OutputSchema(right), pairs))
  }

  /** The left-deep plan over the first `n` tables. */
  function FromPlan(tables: seq<string>, n: nat, catalog: Catalog): Result<Plan>
    requires n <= |tables|
  {
    if n == 0 then Ok(Empty)
    else if n == 1 then TableScan(tables[0], catalog)
    else
      var left :- FromPlan(tables, n - 1, catalog);
      var right :- TableScan(tables[n - 1], catalog);
      Ok(JoinNode(left, right))
  }

  lemma {:induction false} FromPlanFailsEarly(tables: seq<string>, m: nat, n: nat, catalog: Catalog)
    requires 1 <= m <= n <= |tables| && FromPlan(tables, m, catalog).Err?
    ensures FromPlan(tables, n, catalog) == FromPlan(tables, m, catalog)
  {
    if m < n {
      FromPlanFailsEarly(tables, m, n - 1, catalog);
    }
  }

  /** `build_from_clause`: folds the tables into a growing plan. */
  method BuildFromClause(tables: seq<string>, catalog: Catalog) returns (r: Result<Plan>)
    ensures r == FromPlan(tables, |tables|, catalog)
  {
    if tables == [] {
      return Ok(Empty);
    }
    var first := TableScan(tables[0], catalog);
    if first.Err? {
      FromPlanFailsEarly(tables, 1, |tables|, catalog);
      return first;
    }
    var plan := first.value;
    for i := 1 to |tables|
      invariant FromPlan(tables, i, catalog) == Ok(plan)
    {
      var right := TableScan(tables[i], catalog);
      if right.Err? {
        FromPlanFailsEarly(tables, i + 1, |tables|, catalog);
        return Err(right.error);
      }
      var pairs := FindJoinPairs(OutputSchema(plan), OutputSchema(right.value));
      var schema := BuildJoinSchema(OutputSchema(plan), OutputSchema(right.value), pairs);
      plan := Join(plan, right.value, pairs, Inner, schema);
    }
    return Ok(plan);
  }

  // ----- HAVING -----

  predicate LiteralEq(a: Literal, b: Literal) {
    match (a, b)
    case (FloatLit(x), FloatLit(y)) => FloatEq(x, y)
    case _ => a == b
  }

  /** `expr_strictly_matches`: structural, looking through aliases on either side. */
  predicate StrictlyMatches(a: Expr, b: Expr)
    decreases a, b
  {
    match (a, b)
    case (Aggregate(fa, aa, da), Aggregate(fb, ab, db)) => fa == fb && da == db && StrictlyMatches(aa, ab)
    case (Column(x), Column(y)) => x == y
    case (Lit(x), Lit(y)) => LiteralEq(x, y)
    case (Binary(oa, la, ra), Binary(ob, lb, rb)) => oa == ob && StrictlyMatches(la, lb) && StrictlyMatches(ra, rb)
    case (Aliased(ia, _), _) => StrictlyMatches(ia, b)
    case (_, Aliased(ib, _)) => StrictlyMatches(a, ib)
    case _ => false
  }

  function FirstMatch(projections: seq<Expr>, e: Expr): (r: Option<Expr>)
    ensures r.Some? ==> r.value in projections && StrictlyMatches(r.value, e)
    ensures r.None? ==> forall i :: 0 <= i < |projections| ==> !StrictlyMatches(projections[i], e)
  {
    if projections == [] then None
    else if StrictlyMatches(projections[0], e) then Some(projections[0])
    else
      assert forall i :: 1 <= i < |projections| ==> projections[i] == projections[1..][i - 1];
      FirstMatch(projections[1..], e)
  }

  function RewriteHaving(e: Expr, projections: seq<Expr>): Expr {
    match FirstMatch(projections, e)
    case Some(p) => p
    case None =>
      match e
      case Binary(op, l, r) => Binary(op, RewriteHaving(l, projections), RewriteHaving(r, projections))
      case Not(i) => Not(RewriteHaving(i, projections))
      case IsNull(i) => IsNull(RewriteHaving(i, projections))
      case IsNotNull(i) => IsNotNull(RewriteHaving(i, projections))
      case _ => e
  }

  // ----- SELECT, ORDER BY, LIMIT, UNION -----

  /** The projections that contain an aggregate, in order. */
  function AggregateProjections(projections: seq<Expr>): seq<Expr> {
    if projections == [] then []
    else
      (if ContainsAggregate(projections[0]) then [projections[0]] else [])
      + AggregateProjections(projections[1..])
  }

  function ProjectNode(h: Host, input: Plan, projections: seq<Expr>): Plan {
    Project(input, projections, ProjectSchema(h, projections, OutputSchema(input)))
  }

  function GroupedPlan(h: Host, input: Plan, s: SelectQuery): Plan {
    var aggs := AggregateProjections(s.projections);
    var grouped := Aggregation(input, s.groupBy, aggs, AggregateSchema(h, s.groupBy, aggs));
    var projected := ProjectNode(h, grouped, s.projections);
    match s.having
    case Some(e) => Filter(projected, RewriteHaving(e, s.projections), OutputSchema(projected))
    case None => projected
  }

  /** `plan_select` */
  function PlanSelect(h: Host, s: SelectQuery, catalog: Catalog): Result<Plan> {
    var base :- FromPlan(s.from, |s.from|, catalog);
    var filtered := if s.selection.Some? then Filter(base, s.selection.value, OutputSchema(base)) else base;
    if AggregateProjections(s.projections) != [] || s.groupBy != [] then Ok(GroupedPlan(h, filtered, s))
    else
      var projected := ProjectNode(h, filtered, s.projections);
      Ok(if s.distinct then Distinct(projected, OutputSchema(projected)) else projected)
  }

  function PlanSetExpr(h: Host, body: SetExpr, catalog: Catalog): Result<Plan> {
    match body
    case SelectBody(s) => PlanSelect(h, s, catalog)
    case QueryBody(q) => PlanQuery(h, q, catalog)
    case UnionBody(l, r) =>
      var lp :- PlanSetExpr(h, l, catalog);
      var rp :- PlanSetExpr(h, r, catalog);
      Ok(Union([lp, rp], OutputSchema(lp)))
  }

  function PlanQuery(h: Host, q: Query, catalog: Catalog): Result<Plan> {
    var body :- PlanSetExpr(h, q.body, catalog);
    var sorted := if q.orderBy != [] then Sort(body, q.orderBy, OutputSchema(body)) else body;
    Ok(if q.limit.Some? then Limit(sorted, q.limit.value, OutputSchema(sorted)) else sorted)
  }
}
