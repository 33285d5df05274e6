/** The partition tasks of a statement, said of its tables (crates/rspark-cluster/src/partitioner.rs:20-94,
    crates/rspark-sql/src/planner.rs:52-118,183-211). */
module Scans {
  import opened Results
  import opened Values
  import opened Records
  import opened Expressions
  import opened Plans
  import opened Planner
  import opened Partitioner

  /** The tables that a query body names, from left to right. */
  function TablesOf(body: SetExpr): seq<string> {
    match body
    case SelectBody(s) => s.from
    case QueryBody(q) => TablesOf(q.body)
    case UnionBody(l, r) => TablesOf(l) + TablesOf(r)
  }

  /** The catalog's paths of the tables. */
  ghost predicate ArePaths(tables: seq<string>, catalog: Catalog, paths: seq<string>) {
    && |paths| == |tables|
    && forall i :: 0 <= i < |tables| ==> catalog(tables[i]).Ok? && catalog(tables[i]).value.path == paths[i]
  }

  lemma {:induction false} FromScans(tables: seq<string>, n: nat, catalog: Catalog)
    requires n <= |tables| && FromPlan(tables, n, catalog).Ok?
    ensures ArePaths(tables[..n], catalog, ScanPaths(FromPlan(tables, n, catalog).value))
  {
    hide SharedPairs, JoinSchema;
    if n == 1 {
      var scan := TableScan(tables[0], catalog).value;
      assert ScanPaths(scan) == [scan.path];
    } else if n > 1 {
      FromScans(tables, n - 1, catalog);
      var left, right := FromPlan(tables, n - 1, catalog).value, TableScan(tables[n - 1], catalog).value;
      assert ScanPaths(right) == [right.path];
      assert ScanPaths(JoinNode(left, right)) == ScanPaths(left) + ScanPaths(right);
    }
  }

  lemma GroupedScans(h: Host, input: Plan, s: SelectQuery)
    ensures ScanPaths(GroupedPlan(h, input, s)) == ScanPaths(input)
  {
    hide AggregateProjections, AggregateSchema, ProjectSchema, RewriteHaving;
    var projected := GroupedPlan(h, input, s.(having := None));
    assert ScanPaths(projected.input) == ScanPaths(input);
    assert ScanPaths(projected) == ScanPaths(input);
  }

  lemma ProjectScans(input: Plan, es: seq<Expr>, schema: Schema)
    ensures ScanPaths(Project(input, es, schema)) == ScanPaths(input)
    ensures ScanPaths(Distinct(Project(input, es, schema), schema)) == ScanPaths(input)
  {
    assert ScanPaths(Project(input, es, schema)) == ScanPaths(input);
  }

  /** A planned SELECT scans its tables in the order of FROM, whatever stands on top. */
  lemma SelectScans(h: Host, s: SelectQuery, catalog: Catalog)
    requires PlanSelect(h, s, catalog).Ok?
    ensures ArePaths(s.from, catalog, ScanPaths(PlanSelect(h, s, catalog).value))
  {
    hide AggregateProjections, ProjectSchema, FromPlan, GroupedPlan, ArePaths;
    FromScans(s.from, |s.from|, catalog);
    assert s.from[..|s.from|] == s.from;
    var base := FromPlan(s.from, |s.from|, catalog).value;
    var filtered := if s.selection.Some? then Filter(base, s.selection.value, OutputSchema(base)) else base;
    assert ScanPaths(filtered) == ScanPaths(base);
    GroupedScans(h, filtered, s);
    ProjectScans(filtered, s.projections, ProjectSchema(h, s.projections, OutputSchema(filtered)));
  }

  lemma UnionScans(l: Plan, r: Plan, schema: Schema)
    ensures ScanPaths(Union([l, r], schema)) == ScanPaths(l) + ScanPaths(r)
  {
    var u := Union([l, r], schema);
    assert u.inputs[0] == l && u.inputs[1] == r;
    assert UnionPaths(u, 0) == [];
    assert UnionPaths(u, 1) == [] + ScanPaths(l);
    assert UnionPaths(u, 2) == UnionPaths(u, 1) + ScanPaths(r);
  }

  lemma OrderedScans(body: Plan, order: seq<SortExpr>, count: nat)
    ensures ScanPaths(Sort(body, order, OutputSchema(body))) == ScanPaths(body)
    ensures ScanPaths(Limit(body, count, OutputSchema(body))) == ScanPaths(body)
  {
  }

  /** A planned body scans the tables it names, from left to right. */
  lemma {:induction false} BodyScans(h: Host, body: SetExpr, catalog: Catalog)
    requires PlanSetExpr(h, body, catalog).Ok?
    ensures ArePaths(TablesOf(body), catalog, ScanPaths(PlanSetExpr(h, body, catalog).value))
  {
    hide PlanSelect;
    match body
    case SelectBody(s) => SelectScans(h, s, catalog);
    case QueryBody(q) => QueryScans(h, q, catalog);
    case UnionBody(l, r) =>
      BodyScans(h, l, catalog);
      BodyScans(h, r, catalog);
      var lp, rp := PlanSetExpr(h, l, catalog).value, PlanSetExpr(h, r, catalog).value;
      UnionScans(lp, rp, OutputSchema(lp));
  }

  lemma {:induction false} QueryScans(h: Host, q: Query, catalog: Catalog)
    requires PlanQuery(h, q, catalog).Ok?
    ensures ArePaths(TablesOf(q.body), catalog, ScanPaths(PlanQuery(h, q, catalog).value))
  {
    BodyScans(h, q.body, catalog);
    var body := PlanSetExpr(h, q.body, catalog).value;
    var sorted := if q.orderBy != [] then Sort(body, q.orderBy, OutputSchema(body)) else body;
    OrderedScans(body, q.orderBy, 0);
    OrderedScans(sorted, [], if q.limit.Some? then q.limit.value else 0);
  }

  /** The labels of a planned query: for each table it names, one label per degree of parallelism. */
  lemma QueryLabels(h: Host, q: Query, catalog: Catalog, parallelism: nat, i: nat, j: nat)
    requires PlanQuery(h, q, catalog).Ok? && i < |TablesOf(q.body)| && j < parallelism
    ensures catalog(TablesOf(q.body)[i]).Ok?
    ensures var labels := PlannedLabels(PlanQuery(h, q, catalog).value, parallelism);
      && |labels| == |TablesOf(q.body)| * parallelism
      && i * parallelism + j < |labels|
      && labels[i * parallelism + j]
         == "scan[" + catalog(TablesOf(q.body)[i]).value.path + "]:p" + NatToString(j)
  {
    hide PlanQuery, ScanPaths, NatToString;
    QueryScans(h, q, catalog);
    var paths := ScanPaths(PlanQuery(h, q, catalog).value);
    LabelAt(paths, parallelism, i, j);
    LabelsLength(paths[..i], parallelism);
    LabelsLength(paths, parallelism);
  }

  /** Without tables, or without parallelism, there is one stand-in label. */
  lemma NoLabelsMeansStandIn(h: Host, q: Query, catalog: Catalog, parallelism: nat)
    requires PlanQuery(h, q, catalog).Ok?
    ensures TablesOf(q.body) == [] || parallelism == 0
       <==> PlannedLabels(PlanQuery(h, q, catalog).value, parallelism) == ["no-input"]
  {
    hide PlanQuery, ScanPaths, NatToString;
    QueryScans(h, q, catalog);
    var paths := ScanPaths(PlanQuery(h, q, catalog).value);
    LabelsLength(paths, parallelism);
    if paths != [] && parallelism > 0 {
      QueryLabels(h, q, catalog, parallelism, 0, 0);
      assert PlannedLabels(PlanQuery(h, q, catalog).value, parallelism)[0][0] == 's';
    }
  }
}
