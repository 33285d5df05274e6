/** What every HAVING predicate means once rewritten, and which ones the rewriting breaks: those that bury an
    aggregate below NOT, IS NULL or IS NOT NULL, where `substitute_aggregates` falls back to row evaluation
    (crates/rspark-exec/src/operators.rs:218), and those that read a name the projected row does not have. */
module HavingFailures {
  import opened Results
  import opened Values
  import opened Records
  import opened Expressions
  import opened Plans
  import opened Operators
  import opened Aggregating
  import opened Executor
  import opened Planner
  import opened Having

  /** A column, or an aggregate that is not selected, whose name is no output name. */
  ghost predicate Misses(h: Host, e: Expr, projections: seq<Expr>, output: Schema) {
    match e
    case Column(c) => !HasColumn(output, c)
    case Aggregate(_, _, _) => !SelectedAggregate(projections, e) && !HasColumn(output, DisplayName(h, e))
    case Binary(_, l, r) => Misses(h, l, projections, output) || Misses(h, r, projections, output)
    case Not(i) => Misses(h, i, projections, output)
    case IsNull(i) => Misses(h, i, projections, output)
    case IsNotNull(i) => Misses(h, i, projections, output)
    case _ => false
  }

  // ----- missing names -----

  /** Both evaluators fail on the expression. */
  ghost predicate FailsOn(h: Host, e: Expr, row: Record, output: Schema) {
    Eval(h, e, row, output).Err? && SubstituteAggregates(h, e, row, output).Err?
  }

  lemma BinaryFailsOn(h: Host, op: BinaryOp, l: Expr, r: Expr, row: Record, output: Schema)
    requires FailsOn(h, l, row, output) || FailsOn(h, r, row, output)
    ensures FailsOn(h, Binary(op, l, r), row, output)
  {
    hide ApplyBinary, ApplyBinaryOp;
  }

  lemma UnaryFailsOn(h: Host, e: Expr, row: Record, output: Schema)
    requires IsUnary(e) && FailsOn(h, e.inner, row, output)
    ensures FailsOn(h, e, row, output)
  {
  }

  lemma AliasFailsOn(h: Host, q: Expr, row: Record, output: Schema)
    requires q.Aliased? && !q.expr.Aggregate? && FailsOn(h, q.expr, row, output)
    ensures FailsOn(h, q, row, output)
  {
  }

  /** A term with a missing name fails as it stands ... */
  lemma {:induction false} MissingFails(h: Host, e: Expr, projections: seq<Expr>, row: Record, output: Schema)
    requires IsTerm(e) && Misses(h, e, projections, output)
    ensures FailsOn(h, e, row, output)
  {
    match e
    case Binary(op, l, r) =>
      hide FailsOn;
      if Misses(h, l, projections, output) {
        MissingFails(h, l, projections, row, output);
      } else {
        MissingFails(h, r, projections, row, output);
      }
      BinaryFailsOn(h, op, l, r, row, output);
    case Not(i) =>
      MissingFails(h, i, projections, row, output);
      UnaryFailsOn(h, e, row, output);
    case IsNull(i) =>
      MissingFails(h, i, projections, row, output);
      UnaryFailsOn(h, e, row, output);
    case IsNotNull(i) =>
      MissingFails(h, i, projections, row, output);
      UnaryFailsOn(h, e, row, output);
    case _ =>
  }

  /** ... and rewritten. */
  lemma {:induction false} RewrittenMissingFails(h: Host, e: Expr, projections: seq<Expr>, row: Record, output: Schema)
    requires IsTerm(e) && Misses(h, e, projections, output)
    requires forall k :: 0 <= k < |projections| ==> IsItem(projections[k])
    ensures FailsOn(h, RewriteHaving(e, projections), row, output)
  {
    hide FailsOn, RewriteHaving, FirstMatch, IsItem;
    var found := FirstMatch(projections, e);
    if found.Some? {
      FoundMissingFails(h, e, projections, row, output);
    } else {
      RewriteUnfolds(e, projections);
      if !e.Binary? && !IsUnary(e) {
        MissingFails(h, e, projections, row, output);
      } else if e.Binary? {
        if Misses(h, e.left, projections, output) {
          RewrittenMissingFails(h, e.left, projections, row, output);
        } else {
          RewrittenMissingFails(h, e.right, projections, row, output);
        }
        BinaryFailsOn(h, e.op, RewriteHaving(e.left, projections), RewriteHaving(e.right, projections), row, output);
      } else {
        RewrittenMissingFails(h, e.inner, projections, row, output);
        UnaryFailsOn(h, RewriteHaving(e, projections), row, output);
      }
    }
  }

  lemma FoundIsSelected(e: Expr, projections: seq<Expr>, p: Expr)
    requires AliasFree(e) && p in projections && p.Aliased? && p.expr == e && StrictlyMatches(p, e)
    ensures e.Aggregate? ==> SelectedAggregate(projections, e)
  {
    assert p == Aliased(e, p.alias);
  }

  lemma FoundMissingFails(h: Host, e: Expr, projections: seq<Expr>, row: Record, output: Schema)
    requires IsTerm(e) && Misses(h, e, projections, output) && FirstMatch(projections, e).Some?
    requires forall k :: 0 <= k < |projections| ==> IsItem(projections[k])
    ensures FailsOn(h, RewriteHaving(e, projections), row, output)
  {
    hide FailsOn, IsItem;
    var p := FirstMatch(projections, e).value;
    TermAliasFree(e);
    RewrittenTo(projections, e, p);
    MissingFails(h, e, projections, row, output);
    if p != e {
      FoundIsSelected(e, projections, p);
      AliasFailsOn(h, p, row, output);
    }
  }

  // ----- the exact condition -----

  /** A faithful predicate has its meaning; one that buries an aggregate or misses a name fails on every
      projected row. */
  lemma HavingExactly(h: Host, groups: seq<Expr>, projections: seq<Expr>, rows: seq<Record>, schema: Schema,
                      ms: seq<Digest>, row: Record, e: Expr)
    requires rows != [] && Projected(h, groups, projections, rows, schema, ms, row) && IsFormula(e)
    ensures var output := OutputOf(h, groups, projections);
            var verdict := EvalPredicate(h, RewriteHaving(e, projections), row, output);
            && (IsHavingPredicate(e, groups, projections) ==> verdict == GroupTruth(h, e, rows, schema))
            && (Buries(e) || Misses(h, e, projections, output) ==> verdict.Err?)
            && (GroupTruth(h, e, rows, schema).Ok?
                && (IsHavingPredicate(e, groups, projections) || Buries(e) || Misses(h, e, projections, output)) ==>
                (verdict == GroupTruth(h, e, rows, schema) <==> IsHavingPredicate(e, groups, projections)))
  {
    hide Projected, OutputOf, RewriteHaving, SubstituteAggregates, Eval, GroupTruth, IsHavingPredicate, Buries, Misses;
    var output := OutputOf(h, groups, projections);
    if IsHavingPredicate(e, groups, projections) {
      RewritePreservesMeaning(h, groups, projections, rows, schema, ms, row, e);
    }
    if Buries(e) {
      BuriedFails(h, groups, projections, rows, schema, ms, row, e, output);
    }
    if Misses(h, e, projections, output) {
      ProjectedItems(h, groups, projections, rows, schema, ms, row);
      RewrittenMissingFails(h, e, projections, row, output);
    }
  }

  // ----- arithmetic and LIKE beside an aggregate -----

  /** Beside an aggregate, an exposed arithmetic or LIKE operator has two non-null operands. */
  ghost predicate Chokes(h: Host, e: Expr, projections: seq<Expr>, row: Record, output: Schema) {
    e.Binary? && ReducedBelow(e, projections, true)
    && var below := ItemsBelow(e, projections);
       var lv, rv := Reads(h, e.left, below, true, row, output), Reads(h, e.right, below, true, row, output);
       || Chokes(h, e.left, below, row, output) || Chokes(h, e.right, below, row, output)
       || (IsUnsupported(e.op) && lv.Ok? && rv.Ok? && !lv.value.Null? && !rv.value.Null?)
  }

  lemma {:induction false} ChokingReadsFail(h: Host, e: Expr, projections: seq<Expr>, row: Record, output: Schema)
    requires Chokes(h, e, projections, row, output)
    ensures Reads(h, e, projections, true, row, output).Err?
  {
    hide Reads, ApplyBinary;
    var below := ItemsBelow(e, projections);
    ReadsBinary(h, e, projections, true, row, output);
    if Chokes(h, e.left, below, row, output) {
      ChokingReadsFail(h, e.left, below, row, output);
    } else if Chokes(h, e.right, below, row, output) {
      ChokingReadsFail(h, e.right, below, row, output);
    }
  }

  /** A predicate with an aggregate fails on every row on which it chokes. */
  lemma ChokingFails(h: Host, groups: seq<Expr>, projections: seq<Expr>, rows: seq<Record>, schema: Schema,
                     ms: seq<Digest>, row: Record, e: Expr, output: Schema)
    requires Projected(h, groups, projections, rows, schema, ms, row)
    requires IsFormula(e) && HasAggregate(e) && Chokes(h, e, projections, row, output)
    ensures EvalPredicate(h, RewriteHaving(e, projections), row, output).Err?
  {
    hide Projected, RewriteHaving, EvalPredicate, Reads, Buries, Chokes;
    HavingMeaning(h, groups, projections, rows, schema, ms, row, e, output);
    ChokingReadsFail(h, e, projections, row, output);
  }

  /** For instance `HAVING a + 1 > 3` for a selected aggregate `a`: dropped where the aggregate is null, an error
      everywhere else. */
  lemma AggregatePlusOne(h: Host, groups: seq<Expr>, projections: seq<Expr>, rows: seq<Record>, schema: Schema,
                         ms: seq<Digest>, row: Record, a: Expr)
    requires rows != [] && Projected(h, groups, projections, rows, schema, ms, row)
    requires a.Aggregate? && AliasFree(a) && SelectedAggregate(projections, a)
    ensures var e := Binary(GtOp, Binary(AddOp, a, Lit(IntLit(1))), Lit(IntLit(3)));
            var verdict := EvalPredicate(h, RewriteHaving(e, projections), row, OutputOf(h, groups, projections));
            IsFormula(e)
            && (GroupValue(h, a, rows, schema) == Ok(Null) ==> verdict == Ok(false))
            && (GroupValue(h, a, rows, schema) != Ok(Null) ==> verdict.Err?)
  {
    hide Projected, OutputOf, RewriteHaving, EvalPredicate, Reads, GroupValue, AggregateOver;
    var output := OutputOf(h, groups, projections);
    var sum := Binary(AddOp, a, Lit(IntLit(1)));
    var e := Binary(GtOp, sum, Lit(IntLit(3)));
    PlusOneShape(a);
    HavingMeaning(h, groups, projections, rows, schema, ms, row, e, output);
    NotAnItem(h, groups, projections, rows, schema, ms, row, sum);
    NotAnItem(h, groups, projections, rows, schema, ms, row, e);
    SelectedReads(h, groups, projections, rows, schema, ms, row, a);
    ReadsBinary(h, e, projections, true, row, output);
    ReadsBinary(h, sum, projections, true, row, output);
    LeafIs(h, a, projections, row, output);
    LeafIs(h, Lit(IntLit(1)), projections, row, output);
    LeafIs(h, Lit(IntLit(3)), projections, row, output);
    AggregateIsOk(h, a, rows, schema);
  }

  lemma PlusOneShape(a: Expr)
    requires a.Aggregate? && AliasFree(a)
    ensures var sum := Binary(AddOp, a, Lit(IntLit(1))); var e := Binary(GtOp, sum, Lit(IntLit(3)));
            IsTerm(sum) && IsFormula(e) && IsTerm(e) && !Buries(e) && HasAggregate(sum) && HasAggregate(e)
  {
    var sum := Binary(AddOp, a, Lit(IntLit(1)));
    assert IsOperand(a) && IsOperand(Lit(IntLit(1))) && IsOperand(Lit(IntLit(3)));
    assert IsOperand(sum);
    assert HasAggregate(a);
    assert HasAggregate(sum);
    assert !Buries(a) && !Buries(Lit(IntLit(1))) && !Buries(Lit(IntLit(3)));
    assert !Buries(sum);
  }

  lemma NotAnItem(h: Host, groups: seq<Expr>, projections: seq<Expr>, rows: seq<Record>, schema: Schema,
                  ms: seq<Digest>, row: Record, e: Expr)
    requires Projected(h, groups, projections, rows, schema, ms, row)
    requires e.Binary? && IsTerm(e) && HasAggregate(e)
    ensures FirstMatch(projections, e).None?
  {
    hide Digested, DistinctNames, ProjectSchema, ProjectValues, HasAggregate;
    var found := FirstMatch(projections, e);
    if found.Some? {
      TermAliasFree(e);
      RewrittenTo(projections, e, found.value);
      ItemHasNoAggregate(h, groups, projections, rows, schema, ms, row, e, found.value);
    }
  }

  lemma LeafIs(h: Host, e: Expr, projections: seq<Expr>, row: Record, output: Schema)
    ensures e.Lit? ==> Reads(h, e, projections, true, row, output) == Ok(LiteralValue(e.lit))
    ensures e.Aggregate? ==>
      Reads(h, e, projections, true, row, output) == Lookup(output, DisplayName(h, RewriteHaving(e, projections)), row)
  {
    hide RewriteHaving;
  }

  lemma AggregateIsOk(h: Host, a: Expr, rows: seq<Record>, schema: Schema)
    requires rows != [] && a.Aggregate?
    ensures GroupValue(h, a, rows, schema).Ok?
  {
  }

  // ----- captured names -----

  /** A column in HAVING is read from the output column of that name, whatever SELECT item that is. */
  lemma ColumnReadsOutputName(h: Host, projections: seq<Expr>, c: string, row: Record, output: Schema)
    requires forall k :: 0 <= k < |projections| ==> IsItem(projections[k])
    ensures Eval(h, RewriteHaving(Column(c), projections), row, output) == Lookup(output, c, row)
    ensures !HasColumn(output, c) ==>
      Eval(h, RewriteHaving(Column(c), projections), row, output) == Err(ColumnNotFound(c))
  {
    var found := FirstMatch(projections, Column(c));
    if found.Some? {
      RewrittenTo(projections, Column(c), found.value);
    }
  }

  // ----- the planned query -----

  lemma FirstRowDecides(h: Host, e: Expr, rows: seq<Record>, schema: Schema)
    requires rows != [] && EvalPredicate(h, e, rows[0], schema).Err?
    ensures FilterRows(h, e, rows, schema).Err?
  {
    hide EvalPredicate;
  }

  /** A grouped SELECT as the planner accepts it, with a predicate that buries an aggregate or misses a name. */
  ghost predicate Broken(h: Host, groups: seq<Expr>, projections: seq<Expr>, e: Expr) {
    var inner := AggregateSchema(h, groups, AggregateProjections(projections));
    && (forall k :: 0 <= k < |projections| ==> IsItem(projections[k]))
    && DistinctNames(inner) && DistinctNames(ProjectSchema(h, projections, inner))
    && IsFormula(e) && (Buries(e) || Misses(h, e, projections, OutputOf(h, groups, projections)))
  }

  lemma BrokenGroupFails(h: Host, groups: seq<Expr>, projections: seq<Expr>, e: Expr, rows: seq<Record>, schema: Schema,
                         ds: seq<Digest>, i: nat, row: Record)
    requires Broken(h, groups, projections, e)
    requires Digested(h, groups, AggregateProjections(projections), rows, schema, ds) && i < |OrderedKeys(h, ds)|
    requires ProjectValues(h, projections, GroupRow(h, AggregateProjections(projections),
        Members(h, ds, OrderedKeys(h, ds)[i])),
                           AggregateSchema(h, groups, AggregateProjections(projections))) == Ok(row)
    ensures EvalPredicate(h, RewriteHaving(e, projections), row, OutputOf(h, groups, projections)).Err?
  {
    hide AggregateProjections, AggregateSchema, ProjectValues, OrderedKeys, GroupRow, DistinctNames, ProjectSchema,
         EvalPredicate, GroupTruth, IsItem, RewriteHaving, IsFormula, Buries, Misses;
    var key := OrderedKeys(h, ds)[i];
    KeyHasMembers(h, ds, i);
    MembersDigested(h, groups, AggregateProjections(projections), rows, schema, ds, key);
    HavingExactly(h, groups, projections, MemberRows(h, rows, ds, key), schema, Members(h, ds, key), row, e);
  }

  lemma SomeGroup(h: Host, ds: seq<Digest>)
    requires ds != []
    ensures |OrderedKeys(h, ds)| > 0
  {
    OrderedKeysSpec(h, ds);
    assert KeyOf(h, ds[0]) in Keys(h, ds);
  }

  /** A grouped query with such a HAVING fails on every non-empty input. */
  lemma PlannedHavingFails(env: Env, input: Plan, s: SelectQuery, e: Expr, b: Batch)
    requires s.having == Some(e) && Broken(env.host, s.groupBy, s.projections, e)
    requires Denote(input, env) == Ok(b) && b.records != []
    ensures Denote(GroupedPlan(env.host, input, s), env).Err?
  {
    hide Denote, GroupedPlan, Digests, ProjectedGroups, OrderedKeys, FilterRows, RewriteHaving, OutputOf,
         AggregateProjections, AggregateSchema, ProjectSchema, DistinctNames, IsItem, IsFormula, Buries, Misses,
         Digested, ProjectValues, GroupRow, EvalPredicate;
    var h := env.host;
    var r := Denote(GroupedPlan(h, input, s), env);
    if r.Ok? {
      ItemsAreNotStar(s.projections);
      GroupedUnfolds(env, input, s, e, b, r.value);
      var ds := Digests(h, s.groupBy, AggregateProjections(s.projections), b.records, b.schema).value;
      var out := ProjectedGroups(h, s.groupBy, s.projections, ds).value;
      DigestsAreDigested(h, s.groupBy, AggregateProjections(s.projections), b.records, b.schema, ds);
      DigestedCount(h, s.groupBy, AggregateProjections(s.projections), b.records, b.schema, ds);
      SomeGroup(h, ds);
      ProjectedGroupAt(h, s.groupBy, s.projections, ds, 0);
      BrokenGroupFails(h, s.groupBy, s.projections, e, b.records, b.schema, ds, 0, out[0]);
      FirstRowDecides(h, RewriteHaving(e, s.projections), out, OutputOf(h, s.groupBy, s.projections));
    }
  }

  lemma DigestedCount(h: Host, groups: seq<Expr>, aggs: seq<Expr>, rows: seq<Record>, schema: Schema, ds: seq<Digest>)
    requires Digested(h, groups, aggs, rows, schema, ds)
    ensures |ds| == |rows|
  {
  }

  /** For instance `GROUP BY g HAVING NOT (COUNT(1) > 1)`, with the count selected. */
  lemma NotCountIsBroken(h: Host)
    ensures var count := Aggregate(Count, Lit(IntLit(1)), false);
            Broken(h, [Column("g")], [Column("g"), count], Not(Binary(GtOp, count, Lit(IntLit(1)))))
  {
    var count := Aggregate(Count, Lit(IntLit(1)), false);
    var items, e := [Column("g"), count], Not(Binary(GtOp, count, Lit(IntLit(1))));
    assert items[1..] == [count] && [count][1..] == [];
    assert AggregateProjections([count]) == [count];
    assert AggregateProjections(items) == [count];
    var inner := AggregateSchema(h, [Column("g")], [count]);
    assert ProjectSchema(h, [count], inner) == [OutputField(h, count)];
    assert ProjectSchema(h, items, inner) == [OutputField(h, Column("g")), OutputField(h, count)];
    assert OutputFields(h, [Column("g")]) == [OutputField(h, Column("g"))] &&
        OutputFields(h, [count]) == [OutputField(h, count)];
    assert |DisplayName(h, count)| > 1;
    assert DisplayName(h, Column("g")) == "g";
    assert IsFormula(e) && Buries(e);
  }
}
