/** Shape soundness: on planned queries no `validate`, `from_records` or `extend` check ever fails,
    and every node leaves a batch with exactly its stored schema. */
module Shapes {
  import opened Results
  import opened Values
  import opened Records
  import opened Expressions
  import opened Plans
  import opened Orders
  import opened Subsequences
  import opened Operators
  import opened Sorting
  import opened Aggregating
  import opened Executor
  import opened Planner

  /** The stored schemas are what the schema builders give for the inputs. */
  ghost predicate WellShaped(h: Host, p: Plan) {
    match p
    case Scan(_, _, _, s) => DistinctNames(s)
    case Empty => true
    case Project(i, es, s) => WellShaped(h, i) && s == ProjectSchema(h, es, OutputSchema(i))
    case Filter(i, _, s) => WellShaped(h, i) && s == OutputSchema(i)
    case Aggregation(i, gs, aggs, s) => WellShaped(h, i) && s == AggregateSchema(h, gs, aggs)
    case Sort(i, _, s) => WellShaped(h, i) && s == OutputSchema(i)
    case Limit(i, _, s) => WellShaped(h, i) && s == OutputSchema(i)
    case Distinct(i, s) => WellShaped(h, i) && s == OutputSchema(i)
    case Join(l, r, on, how, s) =>
      && WellShaped(h, l) && WellShaped(h, r) && how.Inner?
      && DistinctNames(OutputSchema(r))
      && s == JoinSchema(OutputSchema(l), OutputSchema(r), on)
    case Union(inputs, s) => forall i :: 0 <= i < |inputs| ==> WellShaped(h, inputs[i]) && OutputSchema(inputs[i]) == s
  }

  /** What a data source returns, if it returns rows, has the schema it was asked for. It may fail in any
      way: a CSV file with too few columns makes the source itself raise a shape fault. */
  ghost predicate Conforms(env: Env) {
    forall path, source, schema ::
      match env.scan(path, source, schema)
      case Ok(b) => ValidBatch(b) && (b.records == [] || b.schema == schema)
      case Err(_) => true
  }

  /** The error is the one that some scan of the plan got from its source. */
  ghost predicate FromSource(p: Plan, env: Env, e: Error) {
    match p
    case Scan(_, path, source, schema) => env.scan(path, source, schema) == Err(e)
    case Empty => false
    case Project(i, _, _) => FromSource(i, env, e)
    case Filter(i, _, _) => FromSource(i, env, e)
    case Aggregation(i, _, _, _) => FromSource(i, env, e)
    case Sort(i, _, _) => FromSource(i, env, e)
    case Limit(i, _, _) => FromSource(i, env, e)
    case Distinct(i, _) => FromSource(i, env, e)
    case Join(l, r, _, _, _) => FromSource(l, env, e) || FromSource(r, env, e)
    case Union(inputs, _) => exists i :: 0 <= i < |inputs| && FromSource(inputs[i], env, e)
  }

  ghost predicate GoodOutcome(r: Result<Batch>, schema: Schema) {
    match r
    case Ok(b) => b.schema == schema && ValidBatch(b)
    case Err(e) => !e.IsShapeFault()
  }

  /** The executor itself raises no shape fault, and success leaves the stored schema. */
  ghost predicate Sound(p: Plan, env: Env) {
    GoodOutcome(Denote(p, env), OutputSchema(p))
    || (Denote(p, env).Err? && FromSource(p, env, Denote(p, env).error))
  }

  // ----- expressions raise no shape faults -----

  lemma {:induction false} EvalNoShapeFault(h: Host, e: Expr, row: Record, schema: Schema)
    ensures Eval(h, e, row, schema).Err? ==> !Eval(h, e, row, schema).error.IsShapeFault()
  {
    match e
    case Binary(_, l, r) =>
      EvalNoShapeFault(h, l, row, schema);
      EvalNoShapeFault(h, r, row, schema);
    case Not(i) => EvalNoShapeFault(h, i, row, schema);
    case IsNull(i) => EvalNoShapeFault(h, i, row, schema);
    case IsNotNull(i) => EvalNoShapeFault(h, i, row, schema);
    case If(c, t, f) =>
      EvalNoShapeFault(h, c, row, schema);
      EvalNoShapeFault(h, t, row, schema);
      EvalNoShapeFault(h, f, row, schema);
    case Aliased(i, _) => EvalNoShapeFault(h, i, row, schema);
    case _ =>
  }

  lemma {:induction false} SubstituteNoShapeFault(h: Host, e: Expr, row: Record, schema: Schema)
    ensures SubstituteAggregates(h, e, row, schema).Err? ==>
        !SubstituteAggregates(h, e, row, schema).error.IsShapeFault()
  {
    match e
    case Binary(_, l, r) =>
      SubstituteNoShapeFault(h, l, row, schema);
      SubstituteNoShapeFault(h, r, row, schema);
    case Aliased(i, _) => EvalNoShapeFault(h, i, row, schema);
    case _ => EvalNoShapeFault(h, e, row, schema);
  }

  lemma PredicateNoShapeFault(h: Host, e: Expr, row: Record, schema: Schema)
    ensures EvalPredicate(h, e, row, schema).Err? ==> !EvalPredicate(h, e, row, schema).error.IsShapeFault()
  {
    EvalNoShapeFault(h, e, row, schema);
    SubstituteNoShapeFault(h, e, row, schema);
  }

  // ----- filter -----

  lemma {:induction false} FilterFits(h: Host, e: Expr, rows: seq<Record>, schema: Schema)
    requires AllFit(rows, schema)
    ensures match FilterRows(h, e, rows, schema)
            case Ok(out) => AllFit(out, schema)
            case Err(err) => !err.IsShapeFault()
  {
    if rows != [] {
      PredicateNoShapeFault(h, e, rows[0], schema);
      FilterFits(h, e, rows[1..], schema);
    }
  }

  // ----- project -----

  lemma FitsAppend(a: Record, b: Record, s: Schema, t: Schema)
    requires Fits(a, s) && Fits(b, t)
    ensures Fits(a + b, s + t)
  {
  }

  lemma ProjectItemFits(h: Host, e: Expr, row: Record, schema: Schema)
    requires Fits(row, schema)
    ensures match ProjectItem(h, e, row, schema)
            case Ok(vs) => Fits(vs, ProjectedFields(h, e, schema))
            case Err(err) => !err.IsShapeFault()
  {
    EvalNoShapeFault(h, e, row, schema);
    if e.Aliased? {
      EvalNoShapeFault(h, e.expr, row, schema);
    }
  }

  lemma {:induction false} ProjectValuesFit(h: Host, es: seq<Expr>, row: Record, schema: Schema)
    requires Fits(row, schema)
    ensures match ProjectValues(h, es, row, schema)
            case Ok(out) => Fits(out, ProjectSchema(h, es, schema))
            case Err(err) => !err.IsShapeFault()
  {
    if es != [] {
      ProjectItemFits(h, es[0], row, schema);
      ProjectValuesFit(h, es[1..], row, schema);
      var item, rest := ProjectItem(h, es[0], row, schema), ProjectValues(h, es[1..], row, schema);
      if item.Ok? && rest.Ok? {
        FitsAppend(item.value, rest.value, ProjectedFields(h, es[0], schema), ProjectSchema(h, es[1..], schema));
      }
    }
  }

  lemma {:induction false} ProjectFits(h: Host, es: seq<Expr>, rows: seq<Record>, schema: Schema)
    requires AllFit(rows, schema)
    ensures match ProjectRows(h, es, rows, schema, ProjectSchema(h, es, schema))
            case Ok(out) => AllFit(out, ProjectSchema(h, es, schema))
            case Err(err) => !err.IsShapeFault()
  {
    if rows != [] {
      ProjectValuesFit(h, es, rows[0], schema);
      ProjectFits(h, es, rows[1..], schema);
    }
  }

  lemma SingleStarSchema(h: Host, schema: Schema)
    ensures ProjectSchema(h, [Star], schema) == schema
  {
    assert [Star][1..] == [];
    assert schema + [] == schema;
  }

  // ----- aggregate -----

  ghost predicate AllNullable(schema: Schema) {
    forall i :: 0 <= i < |schema| ==> schema[i].nullable
  }

  lemma {:induction false} GroupRowsWidth(h: Host, aggs: seq<Expr>, ds: seq<Digest>, keys: seq<Key>, width: nat)
    requires forall i :: 0 <= i < |ds| ==> |ds[i].values| == width
    requires forall i :: 0 <= i < |keys| ==> Members(h, ds, keys[i]) != []
    ensures forall k :: 0 <= k < |RowsOfKeys(h, aggs, ds, keys)| ==>
        |RowsOfKeys(h, aggs, ds, keys)[k]| == width + |aggs|
  {
    if keys != [] {
      var n := |keys| - 1;
      GroupRowsWidth(h, aggs, ds, keys[..n], width);
      FirstMember(h, ds, keys[n]);
    }
  }

  lemma {:induction false} EvalAllNoShapeFault(h: Host, es: seq<Expr>, row: Record, schema: Schema)
    ensures EvalAll(h, es, row, schema).Err? ==> !EvalAll(h, es, row, schema).error.IsShapeFault()
  {
    if es != [] {
      EvalNoShapeFault(h, es[0], row, schema);
      EvalAllNoShapeFault(h, es[1..], row, schema);
    }
  }

  lemma {:induction false} EvalArgsNoShapeFault(h: Host, aggs: seq<Expr>, row: Record, schema: Schema)
    ensures EvalArgs(h, aggs, row, schema).Err? ==> !EvalArgs(h, aggs, row, schema).error.IsShapeFault()
  {
    if aggs != [] {
      match AggregateCall(aggs[0]) {
        case Some(Aggregate(_, arg, _)) => EvalNoShapeFault(h, arg, row, schema);
        case _ =>
      }
      EvalArgsNoShapeFault(h, aggs[1..], row, schema);
    }
  }

  lemma {:induction false} DigestsNoShapeFault(h: Host, gs: seq<Expr>, aggs: seq<Expr>, rows: seq<Record>,
        schema: Schema)
    ensures Digests(h, gs, aggs, rows, schema).Err? ==> !Digests(h, gs, aggs, rows, schema).error.IsShapeFault()
  {
    if rows != [] {
      EvalAllNoShapeFault(h, gs, rows[0], schema);
      EvalArgsNoShapeFault(h, aggs, rows[0], schema);
      DigestsNoShapeFault(h, gs, aggs, rows[1..], schema);
    }
  }

  lemma GroupRowsFit(h: Host, aggs: seq<Expr>, ds: seq<Digest>, out: Schema, width: nat)
    requires forall i :: 0 <= i < |ds| ==> |ds[i].values| == width
    requires |out| == width + |aggs| && AllNullable(out)
    ensures AllFit(GroupRows(h, aggs, ds), out)
  {
    var keys := OrderedKeys(h, ds);
    forall i | 0 <= i < |keys|
      ensures Members(h, ds, keys[i]) != []
    {
      OrderedKeysSpec(h, ds);
      assert keys[i] in Elements(keys);
      MembersExist(h, ds, keys[i]);
    }
    GroupRowsWidth(h, aggs, ds, keys, width);
  }

  lemma AggregateFits(h: Host, gs: seq<Expr>, aggs: seq<Expr>, rows: seq<Record>, schema: Schema)
    ensures match AggregatedRows(h, gs, aggs, rows, schema)
            case Ok(out) => AllFit(out, AggregateSchema(h, gs, aggs))
            case Err(err) => !err.IsShapeFault()
  {
    DigestsNoShapeFault(h, gs, aggs, rows, schema);
    var ds := Digests(h, gs, aggs, rows, schema);
    if ds.Ok? {
      DigestShape(h, gs, aggs, rows, schema, ds.value);
      GroupRowsFit(h, aggs, ds.value, AggregateSchema(h, gs, aggs), |gs|);
    }
  }

  // ----- sort, limit, distinct -----

  lemma {:induction false} RowsAtFit(rows: seq<Record>, xs: seq<Keyed>, schema: Schema)
    requires AllFit(rows, schema)
    ensures AllFit(RowsAt(rows, xs), schema)
  {
    if xs != [] {
      RowsAtFit(rows, xs[..|xs| - 1], schema);
    }
  }

  lemma {:induction false} RowKeysNoShapeFault(h: Host, order: seq<SortExpr>, row: Record, schema: Schema)
    ensures RowKeys(h, order, row, schema).Err? ==> !RowKeys(h, order, row, schema).error.IsShapeFault()
  {
    if order != [] {
      EvalNoShapeFault(h, order[0].expr, row, schema);
      RowKeysNoShapeFault(h, order[1..], row, schema);
    }
  }

  lemma {:induction false} KeyedRowsNoShapeFault(h: Host, order: seq<SortExpr>, rows: seq<Record>, schema: Schema,
        from: nat)
    requires from <= |rows|
    ensures KeyedRows(h, order, rows, schema, from).Err? ==>
        !KeyedRows(h, order, rows, schema, from).error.IsShapeFault()
    decreases |rows| - from
  {
    if from < |rows| {
      RowKeysNoShapeFault(h, order, rows[from], schema);
      KeyedRowsNoShapeFault(h, order, rows, schema, from + 1);
    }
  }

  lemma SortFits(h: Host, order: seq<SortExpr>, rows: seq<Record>, schema: Schema)
    requires AllFit(rows, schema)
    ensures match SortedRows(h, order, rows, schema)
            case Ok(out) => AllFit(out, schema)
            case Err(err) => !err.IsShapeFault()
  {
    KeyedRowsNoShapeFault(h, order, rows, schema, 0);
    var keyed := KeyedRows(h, order, rows, schema, 0);
    if keyed.Ok? {
      RowsAtFit(rows, h.sortBy(Directions(order), keyed.value), schema);
    }
  }

  lemma {:induction false} DistinctFits(h: Host, rows: seq<Record>, n: nat, schema: Schema)
    requires AllFit(rows, schema) && n <= |rows|
    ensures AllFit(FirstOccurrences(h, rows, n), schema)
  {
    if n > 0 {
      DistinctFits(h, rows, n - 1, schema);
    }
  }

  // ----- join -----

  lemma {:induction false} KeptValuesFit(r: Record, rs: Schema, i: nat, pairs: JoinPairs)
    requires Fits(r, rs) && DistinctNames(rs) && i <= |rs|
    ensures Fits(KeptValues(r, rs[i..], rs, pairs), KeptFields(rs[i..], pairs))
    decreases |rs| - i
  {
    if i < |rs| {
      assert rs[i..][1..] == rs[i + 1..];
      KeptValuesFit(r, rs, i + 1, pairs);
      IndexOfOwnPosition(rs, i);
      if !IsJoinColumn(pairs, rs[i].name) {
        FitsAppend([r[i]], KeptValues(r, rs[i + 1..], rs, pairs), [rs[i]], KeptFields(rs[i + 1..], pairs));
      }
    }
  }

  lemma JoinedRowFits(l: Record, r: Record, ls: Schema, rs: Schema, pairs: JoinPairs)
    requires Fits(l, ls) && Fits(r, rs) && DistinctNames(rs)
    ensures Fits(JoinedRow(l, r, rs, pairs), JoinSchema(ls, rs, pairs))
  {
    KeptValuesFit(r, rs, 0, pairs);
    assert rs[0..] == rs;
    FitsAppend(l, KeptValues(r, rs, rs, pairs), ls, KeptFields(rs, pairs));
  }

  lemma {:induction false} MatchesFit(l: Record, rights: seq<Record>, ls: Schema, rs: Schema, pairs: JoinPairs)
    requires Fits(l, ls) && AllFit(rights, rs) && DistinctNames(rs)
    ensures AllFit(MatchesOf(l, rights, ls, rs, pairs), JoinSchema(ls, rs, pairs))
  {
    if rights != [] {
      var n := |rights| - 1;
      MatchesFit(l, rights[..n], ls, rs, pairs);
      JoinedRowFits(l, rights[n], ls, rs, pairs);
    }
  }

  lemma {:induction false} JoinFits(lefts: seq<Record>, rights: seq<Record>, ls: Schema, rs: Schema, pairs: JoinPairs)
    requires AllFit(lefts, ls) && AllFit(rights, rs) && DistinctNames(rs)
    ensures AllFit(JoinRows(lefts, rights, ls, rs, pairs, Inner), JoinSchema(ls, rs, pairs))
  {
    if lefts != [] {
      var n := |lefts| - 1;
      JoinFits(lefts[..n], rights, ls, rs, pairs);
      MatchesFit(lefts[n], rights, ls, rs, pairs);
    }
  }

  // ----- the theorem -----

  lemma ScanShape(env: Env, path: string, source: string, schema: Schema)
    requires Conforms(env)
    ensures var r := ScanMeaning(env, path, source, schema);
            if r.Ok? then GoodOutcome(r, schema) else env.scan(path, source, schema) == Err(r.error)
  {
    assert match env.scan(path, source, schema)
      case Ok(b) => ValidBatch(b) && (b.records == [] || b.schema == schema)
      case Err(_) => true;
  }

  lemma ProjectShape(h: Host, es: seq<Expr>, b: Batch)
    requires ValidBatch(b)
    ensures GoodOutcome(ProjectMeaning(h, es, ProjectSchema(h, es, b.schema), b), ProjectSchema(h, es, b.schema))
  {
    if es == [Star] {
      SingleStarSchema(h, b.schema);
    } else {
      ProjectFits(h, es, b.records, b.schema);
    }
  }

  /** One node: good input batches give a good output batch. */
  lemma StepShape(h: Host, p: Plan, b: Batch)
    requires WellShaped(h, p) && ValidBatch(b)
    ensures p.Project? && b.schema == OutputSchema(p.input) ==>
        GoodOutcome(ProjectMeaning(h, p.expressions, p.projectSchema, b), OutputSchema(p))
    ensures p.Filter? && b.schema == OutputSchema(p.input) ==>
        GoodOutcome(FilterMeaning(h, p.predicate_, p.filterSchema, b), OutputSchema(p))
    ensures p.Aggregation? ==> GoodOutcome(AggregateMeaning(h, p.groupExprs, p.aggregateExprs, p.aggregateSchema, b),
        OutputSchema(p))
    ensures p.Sort? && b.schema == OutputSchema(p.input) ==>
        GoodOutcome(SortMeaning(h, p.order, p.sortSchema, b), OutputSchema(p))
    ensures p.Limit? && b.schema == OutputSchema(p.input) ==>
        GoodOutcome(LimitMeaning(p.count, p.limitSchema, b), OutputSchema(p))
    ensures p.Distinct? && b.schema == OutputSchema(p.input) ==>
        GoodOutcome(DistinctMeaning(h, p.distinctSchema, b), OutputSchema(p))
  {
    match p
    case Project(_, es, _) => ProjectShape(h, es, b);
    case Filter(_, e, _) => FilterFits(h, e, b.records, b.schema);
    case Aggregation(_, gs, aggs, _) => AggregateFits(h, gs, aggs, b.records, b.schema);
    case Sort(_, order, _) => SortFits(h, order, b.records, b.schema);
    case Limit(_, _, _) =>
    case Distinct(_, _) => DistinctFits(h, b.records, |b.records|, b.schema);
    case _ =>
  }

  /** Every well-shaped plan leaves a valid batch with the plan's stored schema, or fails for a reason
      other than shape or with an error of one of its sources. Subplans of a well-shaped plan are well
      shaped, so this holds at each node. */
  lemma {:induction false} ShapeSound(p: Plan, env: Env)
    requires WellShaped(env.host, p) && Conforms(env)
    ensures Sound(p, env)
    decreases p, 1
  {
    match p
    case Scan(_, path, source, schema) => ScanShape(env, path, source, schema);
    case Empty =>
    case Join(l, r, on, how, schema) =>
      ShapeSound(l, env);
      ShapeSound(r, env);
      JoinSound(p, env);
    case Union(inputs, schema) => UnionShape(inputs, env, Batch(schema, []));
    case _ =>
      ShapeSound(p.input, env);
      StepSound(p, env);
  }

  lemma JoinSound(p: Plan, env: Env)
    requires p.Join? && WellShaped(env.host, p) && Sound(p.left, env) && Sound(p.right, env)
    ensures Sound(p, env)
  {
    hide WellShaped;
    var lb, rb := Denote(p.left, env), Denote(p.right, env);
    JoinNodeIs(env.host, p);
    if lb.Ok? && rb.Ok? {
      JoinFits(lb.value.records, rb.value.records, lb.value.schema, rb.value.schema, p.on);
    }
  }

  lemma JoinNodeIs(h: Host, p: Plan)
    requires p.Join? && WellShaped(h, p)
    ensures p.how.Inner? && DistinctNames(OutputSchema(p.right))
    ensures p.joinSchema == JoinSchema(OutputSchema(p.left), OutputSchema(p.right), p.on)
  {
  }

  predicate HasOneInput(p: Plan) {
    p.Project? || p.Filter? || p.Aggregation? || p.Sort? || p.Limit? || p.Distinct?
  }

  lemma StepSound(p: Plan, env: Env)
    requires HasOneInput(p) && WellShaped(env.host, p) && Sound(p.input, env)
    ensures Sound(p, env)
  {
    hide WellShaped, ValidBatch;
    var b := Denote(p.input, env);
    if b.Ok? {
      StepShape(env.host, p, b.value);
    }
  }

  lemma {:induction false} UnionShape(inputs: seq<Plan>, env: Env, acc: Batch)
    requires Conforms(env) && ValidBatch(acc)
    requires forall i :: 0 <= i < |inputs| ==> WellShaped(env.host, inputs[i]) && OutputSchema(inputs[i]) == acc.schema
    ensures GoodOutcome(DenoteUnion(inputs, env, acc), acc.schema)
         || (DenoteUnion(inputs, env, acc).Err?
             && exists i :: 0 <= i < |inputs| && FromSource(inputs[i], env, DenoteUnion(inputs, env, acc).error))
    decreases inputs, 0
  {
    hide WellShaped, Conforms, FromSource, ValidBatch;
    if inputs != [] {
      ShapeSound(inputs[0], env);
      var b := Denote(inputs[0], env);
      if b.Ok? {
        ExtendedIsValid(acc, b.value);
        var more := Extended(acc, b.value).value;
        UnionShape(inputs[1..], env, more);
        assert DenoteUnion(inputs, env, acc) == DenoteUnion(inputs[1..], env, more);
        if !GoodOutcome(DenoteUnion(inputs, env, acc), acc.schema) {
          var i :| 0 <= i < |inputs[1..]| && FromSource(inputs[1..][i], env, DenoteUnion(inputs, env, acc).error);
          assert FromSource(inputs[i + 1], env, DenoteUnion(inputs, env, acc).error);
        }
      }
    }
  }

  lemma ExtendedIsValid(acc: Batch, b: Batch)
    requires ValidBatch(acc) && ValidBatch(b) && acc.schema == b.schema
    ensures Extended(acc, b).Ok? && ValidBatch(Extended(acc, b).value) && Extended(acc, b).value.schema == acc.schema
  {
  }

  // ----- planned queries are well shaped -----

  ghost predicate DistinctColumns(catalog: Catalog) {
    forall name :: catalog(name).Ok? ==> DistinctNames(catalog(name).value.schema)
  }

  lemma {:induction false} FromPlanShape(h: Host, tables: seq<string>, n: nat, catalog: Catalog)
    requires n <= |tables| && DistinctColumns(catalog) && FromPlan(tables, n, catalog).Ok?
    ensures WellShaped(h, FromPlan(tables, n, catalog).value)
  {
    if n > 1 {
      FromPlanShape(h, tables, n - 1, catalog);
      assert catalog(tables[n - 1]).Ok?;
    } else if n == 1 {
      assert catalog(tables[0]).Ok?;
    }
  }

  lemma ProjectNodeShape(h: Host, input: Plan, es: seq<Expr>)
    requires WellShaped(h, input)
    ensures WellShaped(h, ProjectNode(h, input, es))
  {
  }

  lemma GroupedPlanShape(h: Host, input: Plan, s: SelectQuery)
    requires WellShaped(h, input)
    ensures WellShaped(h, GroupedPlan(h, input, s))
  {
    var aggs := AggregateProjections(s.projections);
    var grouped := Aggregation(input, s.groupBy, aggs, AggregateSchema(h, s.groupBy, aggs));
    assert WellShaped(h, grouped);
    ProjectNodeShape(h, grouped, s.projections);
  }

  /** Every plan of `plan_select` over duplicate-free table schemas is well shaped. */
  lemma PlanSelectShape(h: Host, s: SelectQuery, catalog: Catalog)
    requires DistinctColumns(catalog) && PlanSelect(h, s, catalog).Ok?
    ensures WellShaped(h, PlanSelect(h, s, catalog).value)
  {
    FromPlanShape(h, s.from, |s.from|, catalog);
    var base := FromPlan(s.from, |s.from|, catalog).value;
    var filtered := if s.selection.Some? then Filter(base, s.selection.value, OutputSchema(base)) else base;
    assert WellShaped(h, filtered);
    GroupedPlanShape(h, filtered, s);
    ProjectNodeShape(h, filtered, s.projections);
  }

  /** No shape check of the executor fails on a planned SELECT, Star expansion and the single-Star path
      included. */
  lemma PlannedSelectIsSound(env: Env, s: SelectQuery, catalog: Catalog)
    requires DistinctColumns(catalog) && Conforms(env) && PlanSelect(env.host, s, catalog).Ok?
    ensures Sound(PlanSelect(env.host, s, catalog).value, env)
  {
    PlanSelectShape(env.host, s, catalog);
    ShapeSound(PlanSelect(env.host, s, catalog).value, env);
  }

  // ----- UNION, ORDER BY, LIMIT -----

  /** The branches of every UNION in a query body have equal output schemas. */
  ghost predicate UnionsAgree(h: Host, body: SetExpr, catalog: Catalog) {
    match body
    case SelectBody(_) => true
    case QueryBody(q) => UnionsAgree(h, q.body, catalog)
    case UnionBody(l, r) =>
      && UnionsAgree(h, l, catalog) && UnionsAgree(h, r, catalog)
      && (PlanSetExpr(h, l, catalog).Ok? && PlanSetExpr(h, r, catalog).Ok? ==>
          OutputSchema(PlanSetExpr(h, l, catalog).value) == OutputSchema(PlanSetExpr(h, r, catalog).value))
  }

  /** A planned body is well shaped exactly when its UNIONs agree. */
  lemma {:induction false} BodyShape(h: Host, body: SetExpr, catalog: Catalog)
    requires DistinctColumns(catalog) && PlanSetExpr(h, body, catalog).Ok?
    ensures WellShaped(h, PlanSetExpr(h, body, catalog).value) <==> UnionsAgree(h, body, catalog)
  {
    hide DistinctColumns, PlanSelect;
    match body
    case SelectBody(s) => PlanSelectShape(h, s, catalog);
    case QueryBody(q) =>
      BodyShape(h, q.body, catalog);
      OrderingKeepsShape(h, q, catalog);
    case UnionBody(l, r) =>
      BodyShape(h, l, catalog);
      BodyShape(h, r, catalog);
      UnionNodeShape(h, PlanSetExpr(h, l, catalog).value, PlanSetExpr(h, r, catalog).value);
  }

  /** ORDER BY and LIMIT change neither shape nor schema. */
  lemma OrderingKeepsShape(h: Host, q: Query, catalog: Catalog)
    requires PlanQuery(h, q, catalog).Ok?
    ensures PlanSetExpr(h, q.body, catalog).Ok?
    ensures WellShaped(h, PlanQuery(h, q, catalog).value) <==> WellShaped(h, PlanSetExpr(h, q.body, catalog).value)
    ensures OutputSchema(PlanQuery(h, q, catalog).value) == OutputSchema(PlanSetExpr(h, q.body, catalog).value)
  {
    hide PlanSetExpr;
    var body := PlanSetExpr(h, q.body, catalog).value;
    var sorted := if q.orderBy != [] then Sort(body, q.orderBy, OutputSchema(body)) else body;
    assert WellShaped(h, sorted) <==> WellShaped(h, body);
  }

  lemma UnionNodeShape(h: Host, l: Plan, r: Plan)
    ensures WellShaped(h, Union([l, r], OutputSchema(l))) <==>
            WellShaped(h, l) && WellShaped(h, r) && OutputSchema(l) == OutputSchema(r)
  {
    var p := Union([l, r], OutputSchema(l));
    assert p.inputs[0] == l && p.inputs[1] == r;
  }

  /** Every planned query whose UNIONs agree is sound: ORDER BY, LIMIT and nested queries included. */
  lemma PlannedQueryIsSound(env: Env, q: Query, catalog: Catalog)
    requires DistinctColumns(catalog) && Conforms(env) && PlanQuery(env.host, q, catalog).Ok?
    ensures WellShaped(env.host, PlanQuery(env.host, q, catalog).value) <==> UnionsAgree(env.host, q.body, catalog)
    ensures UnionsAgree(env.host, q.body, catalog) ==> Sound(PlanQuery(env.host, q, catalog).value, env)
  {
    hide DistinctColumns, Conforms, WellShaped, Sound;
    OrderingKeepsShape(env.host, q, catalog);
    BodyShape(env.host, q.body, catalog);
    if UnionsAgree(env.host, q.body, catalog) {
      ShapeSound(PlanQuery(env.host, q, catalog).value, env);
    }
  }

  /** A body with a UNION that disagrees always fails, on empty tables too. */
  lemma {:induction false} DisagreeingBodyFails(env: Env, body: SetExpr, catalog: Catalog)
    requires DistinctColumns(catalog) && Conforms(env) && PlanSetExpr(env.host, body, catalog).Ok?
    requires !UnionsAgree(env.host, body, catalog)
    ensures Denote(PlanSetExpr(env.host, body, catalog).value, env).Err?
  {
    hide DistinctColumns, Conforms, Denote, PlanSelect, WellShaped;
    match body
    case QueryBody(q) =>
      DisagreeingBodyFails(env, q.body, catalog);
      OrderingKeepsFailure(env, q, catalog);
    case UnionBody(l, r) =>
      var lp, rp := PlanSetExpr(env.host, l, catalog).value, PlanSetExpr(env.host, r, catalog).value;
      if !UnionsAgree(env.host, l, catalog) {
        DisagreeingBodyFails(env, l, catalog);
      } else if !UnionsAgree(env.host, r, catalog) {
        DisagreeingBodyFails(env, r, catalog);
      } else {
        BodyShape(env.host, l, catalog);
        BodyShape(env.host, r, catalog);
        ShapeSound(lp, env);
        ShapeSound(rp, env);
      }
      UnionFails(lp, rp, env);
    case SelectBody(_) =>
  }

  lemma UnionFails(lp: Plan, rp: Plan, env: Env)
    requires Denote(lp, env).Err? || Denote(rp, env).Err? ||
        Denote(lp, env).value.schema != Denote(rp, env).value.schema
    ensures Denote(Union([lp, rp], OutputSchema(lp)), env).Err?
  {
    hide ValidBatch;
    UnionConcatenates([lp, rp], env, Batch(OutputSchema(lp), []));
    assert [lp, rp][0] == lp && [lp, rp][1] == rp;
  }

  lemma OrderingKeepsFailure(env: Env, q: Query, catalog: Catalog)
    requires PlanQuery(env.host, q, catalog).Ok?
    requires PlanSetExpr(env.host, q.body, catalog).Ok? ==>
        Denote(PlanSetExpr(env.host, q.body, catalog).value, env).Err?
    ensures Denote(PlanQuery(env.host, q, catalog).value, env).Err?
  {
    hide PlanSetExpr, SortMeaning, LimitMeaning;
    var body := PlanSetExpr(env.host, q.body, catalog).value;
    var sorted := if q.orderBy != [] then Sort(body, q.orderBy, OutputSchema(body)) else body;
    assert Denote(sorted, env).Err?;
  }

  /** So a planned query passes the shape checks of its UNIONs exactly when they agree. */
  lemma PlannedQueryFails(env: Env, q: Query, catalog: Catalog)
    requires DistinctColumns(catalog) && Conforms(env) && PlanQuery(env.host, q, catalog).Ok?
    requires !UnionsAgree(env.host, q.body, catalog)
    ensures Denote(PlanQuery(env.host, q, catalog).value, env).Err?
  {
    hide DistinctColumns, Conforms, Denote, PlanSetExpr;
    OrderingKeepsShape(env.host, q, catalog);
    DisagreeingBodyFails(env, q.body, catalog);
    OrderingKeepsFailure(env, q, catalog);
  }

  function SelectOne(table: string, c: string): SelectQuery {
    SelectQuery([table], None, [Column(c)], [], None, false)
  }

  /** For instance `SELECT a FROM t UNION SELECT b FROM t`, whose branches differ in a column name. */
  lemma UnionOfTwoNamesFails(env: Env, catalog: Catalog)
    requires DistinctColumns(catalog) && Conforms(env) && catalog("t").Ok?
    ensures var q := Query(UnionBody(SelectBody(SelectOne("t", "a")), SelectBody(SelectOne("t", "b"))), [], None);
            PlanQuery(env.host, q, catalog).Ok? && Denote(PlanQuery(env.host, q, catalog).value, env).Err?
  {
    hide DistinctColumns, Conforms, Denote;
    var l, r := SelectBody(SelectOne("t", "a")), SelectBody(SelectOne("t", "b"));
    SelectOneSchema(env.host, "t", "a", catalog);
    SelectOneSchema(env.host, "t", "b", catalog);
    assert PlanSetExpr(env.host, l, catalog) == PlanSelect(env.host, SelectOne("t", "a"), catalog);
    assert PlanSetExpr(env.host, r, catalog) == PlanSelect(env.host, SelectOne("t", "b"), catalog);
    assert "a" != "b";
    PlannedQueryFails(env, Query(UnionBody(l, r), [], None), catalog);
  }

  lemma SelectOneSchema(h: Host, table: string, c: string, catalog: Catalog)
    requires catalog(table).Ok?
    ensures PlanSelect(h, SelectOne(table, c), catalog).Ok?
    ensures |OutputSchema(PlanSelect(h, SelectOne(table, c), catalog).value)| == 1
    ensures OutputSchema(PlanSelect(h, SelectOne(table, c), catalog).value)[0].name == c
  {
    var items := [Column(c)];
    assert items[1..] == [];
    assert AggregateProjections(items) == [];
    var base := FromPlan([table], 1, catalog).value;
    assert ProjectSchema(h, items, OutputSchema(base))
        == [OutputField(h, Column(c))] + ProjectSchema(h, items[1..], OutputSchema(base));
  }
}
