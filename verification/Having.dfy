/** HAVING (crates/rspark-sql/src/planner.rs:136-158,258-307, crates/rspark-exec/src/operators.rs:151-301):
    rewriting the predicate over the projected rows preserves its meaning over the groups. */
module Having {
  import opened Results
  import opened Values
  import opened Records
  import opened Expressions
  import opened Plans
  import opened Orders
  import opened Subsequences
  import opened Operators
  import opened Aggregating
  import opened Executor
  import opened Planner

  // ----- the reference meaning: predicates over a group of input rows -----

  /** The argument of an aggregate over the rows of a group. */
  ghost function ArgColumn(h: Host, arg: Expr, rows: seq<Record>, schema: Schema): seq<Value> {
    if rows == [] then []
    else
      var n := |rows| - 1;
      ArgColumn(h, arg, rows[..n], schema)
      + (match Eval(h, arg, rows[n], schema) case Ok(v) => [v] case Err(_) => [])
  }

  ghost function AggregateOver(h: Host, func: AggregateFn, arg: Expr, rows: seq<Record>, schema: Schema): Value {
    Finish(h, Fold(h, func, ArgColumn(h, arg, rows, schema)))
  }

  /** Group columns are read from the group's first row, aggregates are folded over all its rows. */
  ghost function GroupValue(h: Host, e: Expr, rows: seq<Record>, schema: Schema): Result<Value>
    requires rows != []
  {
    match e
    case Aggregate(func, arg, _) => Ok(AggregateOver(h, func, arg, rows, schema))
    case Binary(op, l, r) =>
      var lv :- GroupValue(h, l, rows, schema);
      var rv :- GroupValue(h, r, rows, schema);
      NullStrict(h, op, lv, rv)
    case Not(i) =>
      var v :- GroupValue(h, i, rows, schema);
      NotValue(v)
    case IsNull(i) =>
      var v :- GroupValue(h, i, rows, schema);
      Ok(Boolean(v.Null?))
    case IsNotNull(i) =>
      var v :- GroupValue(h, i, rows, schema);
      Ok(Boolean(!v.Null?))
    case _ => Eval(h, e, rows[0], schema)
  }

  function NotValue(v: Value): Result<Value> {
    match v
    case Null => Ok(Null)
    case Boolean(b) => Ok(Boolean(!b))
    case _ => Err(TypeError("NOT", [DataTypeName(v)]))
  }

  ghost function GroupTruth(h: Host, e: Expr, rows: seq<Record>, schema: Schema): Result<bool>
    requires rows != []
  {
    var v :- GroupValue(h, e, rows, schema);
    AsTruth(v)
  }

  // ----- which predicates -----

  predicate AliasFree(e: Expr) {
    match e
    case Aliased(_, _) => false
    case Binary(_, l, r) => AliasFree(l) && AliasFree(r)
    case Not(i) => AliasFree(i)
    case IsNull(i) => AliasFree(i)
    case IsNotNull(i) => AliasFree(i)
    case If(c, t, f) => AliasFree(c) && AliasFree(t) && AliasFree(f)
    case Aggregate(_, a, _) => AliasFree(a)
    case _ => true
  }

  /** A SELECT item as the builder makes it: an alias at most on top, and no `*`. */
  predicate IsItem(p: Expr) {
    !p.Star? && (AliasFree(p) || (p.Aliased? && AliasFree(p.expr)))
  }

  /** The aggregate is in the SELECT list: as it stands, or aliased and recognisable by the matcher. */
  ghost predicate SelectedAggregate(projections: seq<Expr>, e: Expr) {
    e.Aggregate? && AliasFree(e)
    && (e in projections || (StrictlyMatches(e, e) && exists a :: Aliased(e, a) in projections))
  }

  predicate IsComparison(op: BinaryOp) {
    op in {EqOp, NotEqOp, LtOp, LtEqOp, GtOp, GtEqOp}
  }

  predicate IsArithmetic(op: BinaryOp) {
    op in {AddOp, SubOp, MulOp, DivOp, ModOp}
  }

  /** Literals, columns, aggregates, conditionals (COALESCE among them) and arithmetic over these. */
  predicate IsOperand(e: Expr) {
    match e
    case Lit(_) => true
    case Column(_) => true
    case Aggregate(_, _, _) => AliasFree(e)
    case If(_, _, _) => AliasFree(e)
    case Binary(op, l, r) => IsArithmetic(op) && IsOperand(l) && IsOperand(r)
    case _ => false
  }

  /** Comparisons and LIKE, combined with AND, OR, NOT, IS NULL and IS NOT NULL. */
  predicate IsFormula(e: Expr)
    decreases e, 0
  {
    match e
    case Binary(op, l, r) =>
      if IsComparison(op) || op.LikeOp? then IsOperand(l) && IsOperand(r)
      else op in {AndOp, OrOp} && IsFormula(l) && IsFormula(r)
    case Not(i) => IsFormula(i)
    case IsNull(i) => IsTerm(i)
    case IsNotNull(i) => IsTerm(i)
    case _ => false
  }

  predicate IsTerm(e: Expr)
    decreases e, 1
  {
    IsOperand(e) || IsFormula(e)
  }

  /** An operator that the table of HAVING predicates lacks (crates/rspark-exec/src/operators.rs:250-255). */
  predicate IsUnsupported(op: BinaryOp) {
    IsArithmetic(op) || op.LikeOp?
  }

  /** Such an operator occurs outside NOT, IS NULL and IS NOT NULL. */
  predicate Exposes(e: Expr) {
    e.Binary? && (IsUnsupported(e.op) || Exposes(e.left) || Exposes(e.right))
  }

  /** The column is selected under its own name. */
  ghost predicate ColumnKept(projections: seq<Expr>, c: string) {
    Column(c) in projections || Aliased(Column(c), c) in projections
  }

  /** Every column is a group column selected under its own name, every aggregate is selected, and no
      aggregate stands below NOT, IS NULL or IS NOT NULL. */
  ghost predicate Faithful(e: Expr, groups: seq<Expr>, projections: seq<Expr>) {
    match e
    case Column(c) => e in groups && ColumnKept(projections, c)
    case Aggregate(_, _, _) => SelectedAggregate(projections, e)
    case Binary(_, l, r) => Faithful(l, groups, projections) && Faithful(r, groups, projections)
    case Not(i) => !HasAggregate(i) && Faithful(i, groups, projections)
    case IsNull(i) => !HasAggregate(i) && Faithful(i, groups, projections)
    case IsNotNull(i) => !HasAggregate(i) && Faithful(i, groups, projections)
    case If(_, _, _) => false
    case _ => true
  }

  /** Beside an aggregate, moreover, arithmetic and LIKE must not be exposed. */
  ghost predicate IsHavingPredicate(e: Expr, groups: seq<Expr>, projections: seq<Expr>) {
    IsFormula(e) && Faithful(e, groups, projections) && (HasAggregate(e) ==> !Exposes(e))
  }

  // ----- the matcher -----

  lemma {:induction false} MatchIsEquality(a: Expr, b: Expr)
    requires AliasFree(a) && AliasFree(b) && StrictlyMatches(a, b)
    ensures a == b
  {
    match a
    case Binary(_, l, r) =>
      MatchIsEquality(l, b.left);
      MatchIsEquality(r, b.right);
    case Aggregate(_, i, _) => MatchIsEquality(i, b.arg);
    case _ =>
  }

  /** A matching SELECT item is the expression itself or an alias of it. */
  lemma MatchingItem(p: Expr, e: Expr)
    requires IsItem(p) && AliasFree(e) && StrictlyMatches(p, e)
    ensures p == e || (p.Aliased? && p.expr == e)
  {
    if p.Aliased? {
      MatchIsEquality(p.expr, e);
    } else {
      MatchIsEquality(p, e);
    }
  }

  // ----- rows of a group -----

  /** The input rows behind the digests with the given key. */
  ghost function MemberRows(h: Host, rows: seq<Record>, ds: seq<Digest>, key: Key): seq<Record>
    requires |rows| == |ds|
  {
    if ds == [] then []
    else
      var n := |ds| - 1;
      MemberRows(h, rows[..n], ds[..n], key) + (if KeyOf(h, ds[n]) == key then [rows[n]] else [])
  }

  ghost predicate Digested(h: Host, groups: seq<Expr>, aggs: seq<Expr>, rows: seq<Record>, schema: Schema,
                           ds: seq<Digest>) {
    |ds| == |rows| && forall i :: 0 <= i < |rows| ==> RowDigest(h, groups, aggs, rows[i], schema) == Ok(ds[i])
  }

  lemma {:induction false} MembersDigested(h: Host, groups: seq<Expr>, aggs: seq<Expr>, rows: seq<Record>,
        schema: Schema,
                                           ds: seq<Digest>, key: Key)
    requires Digested(h, groups, aggs, rows, schema, ds)
    ensures Digested(h, groups, aggs, MemberRows(h, rows, ds, key), schema, Members(h, ds, key))
  {
    if ds != [] {
      var n := |ds| - 1;
      MembersDigested(h, groups, aggs, rows[..n], schema, ds[..n], key);
    }
  }

  lemma {:induction false} EvalAllAt(h: Host, es: seq<Expr>, row: Record, schema: Schema, j: nat)
    requires j < |es| && EvalAll(h, es, row, schema).Ok?
    ensures |EvalAll(h, es, row, schema).value| == |es|
    ensures Eval(h, es[j], row, schema) == Ok(EvalAll(h, es, row, schema).value[j])
  {
    EvalAllWidth(h, es, row, schema);
    EvalAllWidth(h, es[1..], row, schema);
    if j > 0 {
      EvalAllAt(h, es[1..], row, schema, j - 1);
      assert EvalAll(h, es, row, schema).value[j] == EvalAll(h, es[1..], row, schema).value[j - 1];
    }
  }

  /** The values an accumulator sees are the aggregate's argument over the group's rows. */
  lemma {:induction false} ArgsAreColumn(h: Host, groups: seq<Expr>, aggs: seq<Expr>, rows: seq<Record>, schema: Schema,
                                         ms: seq<Digest>, j: nat, call: Expr)
    requires Digested(h, groups, aggs, rows, schema, ms) && j < |aggs|
    requires AggregateCall(aggs[j]) == Some(call) && call.Aggregate?
    ensures ArgValues(ms, j) == ArgColumn(h, call.arg, rows, schema)
  {
    if ms != [] {
      var n := |ms| - 1;
      ArgsAreColumn(h, groups, aggs, rows[..n], schema, ms[..n], j, call);
      EvalArgsAt(h, aggs, rows[n], schema, j);
    }
  }

  /** The cell of an aggregate in its group's output row. */
  lemma AggregateCell(h: Host, groups: seq<Expr>, aggs: seq<Expr>, rows: seq<Record>, schema: Schema,
                      ms: seq<Digest>, j: nat, call: Expr)
    requires Digested(h, groups, aggs, rows, schema, ms) && j < |aggs| && ms != []
    requires AggregateCall(aggs[j]) == Some(call) && call.Aggregate? && |ms[0].values| == |groups|
    ensures |groups| + j < |GroupRow(h, aggs, ms)|
    ensures GroupRow(h, aggs, ms)[|groups| + j] == AggregateOver(h, call.func, call.arg, rows, schema)
  {
    AccumulatorsAt(h, aggs, ms, j);
    ArgsAreColumn(h, groups, aggs, rows, schema, ms, j, call);
    FinishAllAt(h, Accumulators(h, aggs, ms), j);
  }

  /** The cell of a group column in its group's output row. */
  lemma GroupCell(h: Host, groups: seq<Expr>, aggs: seq<Expr>, rows: seq<Record>, schema: Schema, ms: seq<Digest>,
                  j: nat)
    requires Digested(h, groups, aggs, rows, schema, ms) && j < |groups| && ms != []
    ensures |ms[0].values| == |groups| && j < |GroupRow(h, aggs, ms)|
    ensures Eval(h, groups[j], rows[0], schema) == Ok(GroupRow(h, aggs, ms)[j])
  {
    assert RowDigest(h, groups, aggs, rows[0], schema) == Ok(ms[0]);
    EvalAllAt(h, groups, rows[0], schema, j);
  }

  // ----- positions in the aggregate and projected schemas -----

  lemma {:induction false} AggregateProjectionsHave(projections: seq<Expr>, p: Expr)
    requires p in projections && ContainsAggregate(p)
    ensures p in AggregateProjections(projections)
  {
    if projections[0] != p {
      assert p in projections[1..];
      AggregateProjectionsHave(projections[1..], p);
    }
  }

  ghost predicate NoStar(es: seq<Expr>) {
    forall k :: 0 <= k < |es| ==> !es[k].Star?
  }

  lemma {:induction false} ProjectSchemaAt(h: Host, es: seq<Expr>, input: Schema, k: nat)
    requires NoStar(es) && k < |es|
    ensures |ProjectSchema(h, es, input)| == |es| && ProjectSchema(h, es, input)[k] == OutputField(h, es[k])
  {
    if |es| > 1 {
      ProjectSchemaAt(h, es[1..], input, if k == 0 then 0 else k - 1);
    }
  }

  lemma {:induction false} ProjectValuesAt(h: Host, es: seq<Expr>, row: Record, schema: Schema, k: nat)
    requires NoStar(es) && k < |es| && ProjectValues(h, es, row, schema).Ok?
    ensures |ProjectValues(h, es, row, schema).value| == |es|
    ensures ProjectItem(h, es[k], row, schema) == Ok([ProjectValues(h, es, row, schema).value[k]])
  {
    hide Eval, Lookup, DisplayName;
    if |es| > 1 {
      ProjectValuesAt(h, es[1..], row, schema, if k == 0 then 0 else k - 1);
    } else {
      assert es[1..] == [];
    }
  }

  /** Everything known about one group and its projected row. */
  ghost predicate Projected(h: Host, groups: seq<Expr>, projections: seq<Expr>, rows: seq<Record>, schema: Schema,
                            ms: seq<Digest>, row: Record) {
    var aggs := AggregateProjections(projections);
    var inner := AggregateSchema(h, groups, aggs);
    && ms != [] && Digested(h, groups, aggs, rows, schema, ms)
    && (forall k :: 0 <= k < |projections| ==> IsItem(projections[k]))
    && DistinctNames(inner) && DistinctNames(ProjectSchema(h, projections, inner))
    && ProjectValues(h, projections, GroupRow(h, aggs, ms), inner) == Ok(row)
  }

  /** Looking up a SELECT item's output name in the projected row gives that item's value. */
  lemma LookupItem(h: Host, es: seq<Expr>, input: Schema, values: Record, row: Record, k: nat)
    requires NoStar(es) && k < |es| && DistinctNames(ProjectSchema(h, es, input))
    requires ProjectValues(h, es, values, input) == Ok(row)
    ensures Lookup(ProjectSchema(h, es, input), DisplayName(h, es[k]), row).Ok?
    ensures ProjectItem(h, es[k], values, input)
        == Ok([Lookup(ProjectSchema(h, es, input), DisplayName(h, es[k]), row).value])
  {
    ProjectSchemaAt(h, es, input, k);
    ProjectValuesAt(h, es, values, input, k);
    IndexOfOwnPosition(ProjectSchema(h, es, input), k);
  }

  /** A selected group column reads, in the projected row, as in the group's first row. */
  lemma ColumnReads(h: Host, groups: seq<Expr>, projections: seq<Expr>, rows: seq<Record>, schema: Schema,
                    ms: seq<Digest>, row: Record, c: string)
    requires Projected(h, groups, projections, rows, schema, ms, row)
    requires Column(c) in groups && ColumnKept(projections, c)
    ensures Lookup(ProjectSchema(h, projections, AggregateSchema(h, groups, AggregateProjections(projections))), c, row)
         == Eval(h, Column(c), rows[0], schema)
  {
    hide GroupRow, ProjectValues, ProjectSchema, AggregateProjections, Digested;
    var aggs := AggregateProjections(projections);
    var inner := AggregateSchema(h, groups, aggs);
    var k :| 0 <= k < |projections| && (projections[k] == Column(c) || projections[k] == Aliased(Column(c), c));
    LookupItem(h, projections, inner, GroupRow(h, aggs, ms), row, k);
    var j :| 0 <= j < |groups| && groups[j] == Column(c);
    assert inner[j].name == c;
    IndexOfOwnPosition(inner, j);
    GroupCell(h, groups, aggs, rows, schema, ms, j);
  }

  /** A selected aggregate reads, in the projected row, as its fold over the group. */
  lemma AggregateReads(h: Host, groups: seq<Expr>, projections: seq<Expr>, rows: seq<Record>, schema: Schema,
                       ms: seq<Digest>, row: Record, p: Expr, call: Expr)
    requires Projected(h, groups, projections, rows, schema, ms, row)
    requires p in projections && AggregateCall(p) == Some(call) && call.Aggregate?
    ensures Lookup(ProjectSchema(h, projections, AggregateSchema(h, groups, AggregateProjections(projections))),
        DisplayName(h, p), row)
         == Ok(AggregateOver(h, call.func, call.arg, rows, schema))
  {
    hide GroupRow, AggregateOver, ProjectValues, ProjectSchema, AggregateProjections, Digested, Eval, Lookup,
         AggregateSchema, ProjectItem, DisplayName, DistinctNames;
    var aggs := AggregateProjections(projections);
    var inner := AggregateSchema(h, groups, aggs);
    var k :| 0 <= k < |projections| && projections[k] == p;
    LookupItem(h, projections, inner, GroupRow(h, aggs, ms), row, k);
    AggregateProjectionsHave(projections, p);
    var j :| 0 <= j < |aggs| && aggs[j] == p;
    GroupWidth(h, groups, aggs, rows, schema, ms);
    AggregateCell(h, groups, aggs, rows, schema, ms, j, call);
    AggregateItem(h, groups, aggs, j, call, GroupRow(h, aggs, ms));
  }

  /** Projecting an aggregate reads its own cell of the group's row. */
  lemma AggregateItem(h: Host, groups: seq<Expr>, aggs: seq<Expr>, j: nat, call: Expr, values: Record)
    requires DistinctNames(AggregateSchema(h, groups, aggs)) && j < |aggs| && |groups| + j < |values|
    requires AggregateCall(aggs[j]) == Some(call) && call.Aggregate?
    ensures ProjectItem(h, aggs[j], values, AggregateSchema(h, groups, aggs)) == Ok([values[|groups| + j]])
  {
    hide Eval;
    var inner := AggregateSchema(h, groups, aggs);
    assert inner[|groups| + j].name == DisplayName(h, aggs[j]);
    IndexOfOwnPosition(inner, |groups| + j);
  }

  lemma GroupWidth(h: Host, groups: seq<Expr>, aggs: seq<Expr>, rows: seq<Record>, schema: Schema, ms: seq<Digest>)
    requires Digested(h, groups, aggs, rows, schema, ms) && ms != []
    ensures |ms[0].values| == |groups|
  {
    assert RowDigest(h, groups, aggs, rows[0], schema) == Ok(ms[0]);
    EvalAllWidth(h, groups, rows[0], schema);
  }

  // ----- evaluating the rewritten predicate -----

  ghost function OutputOf(h: Host, groups: seq<Expr>, projections: seq<Expr>): Schema {
    ProjectSchema(h, projections, AggregateSchema(h, groups, AggregateProjections(projections)))
  }

  /** The HAVING operator table agrees with the general one on comparisons, and on AND and OR of
      truth values. */
  lemma SameOperator(h: Host, op: BinaryOp, l: Value, r: Value)
    requires !l.Null? && !r.Null?
    requires IsComparison(op) || (op in {AndOp, OrOp} && l.Boolean? && r.Boolean?)
    ensures ApplyBinaryOp(h, op, l, r) == ApplyBinary(h, op, l, r)
  {
  }

  /** Null-strict combination of two outcomes under an operator table entry. */
  ghost function Combine(l: Result<Value>, r: Result<Value>, both: Result<Value>): Result<Value> {
    if l.Err? then l
    else if r.Err? then r
    else if l.value.Null? || r.value.Null? then Ok(Null)
    else both
  }

  ghost function OrNull(r: Result<Value>): Value {
    if r.Ok? then r.value else Null
  }

  lemma EvalUnfolds(h: Host, op: BinaryOp, ql: Expr, qr: Expr, row: Record, output: Schema)
    ensures var l, r := Eval(h, ql, row, output), Eval(h, qr, row, output);
      Eval(h, Binary(op, ql, qr), row, output) == Combine(l, r, ApplyBinary(h, op, OrNull(l), OrNull(r)))
  {
    hide ApplyBinary, ApplyBinaryOp, SubstituteAggregates, HasAggregate, Lookup, DisplayName;
  }

  lemma SubstituteUnfolds(h: Host, op: BinaryOp, ql: Expr, qr: Expr, row: Record, output: Schema)
    ensures var l, r := SubstituteAggregates(h, ql, row, output), SubstituteAggregates(h, qr, row, output);
      SubstituteAggregates(h, Binary(op, ql, qr), row, output)
          == Combine(l, r, ApplyBinaryOp(h, op, OrNull(l), OrNull(r)))
  {
    hide ApplyBinary, ApplyBinaryOp, Eval, HasAggregate, Lookup, DisplayName;
  }

  lemma BinaryUnfolds(h: Host, op: BinaryOp, ql: Expr, qr: Expr, row: Record, output: Schema)
    ensures var l, r := Eval(h, ql, row, output), Eval(h, qr, row, output);
      Eval(h, Binary(op, ql, qr), row, output) == Combine(l, r, ApplyBinary(h, op, OrNull(l), OrNull(r)))
    ensures var l, r := SubstituteAggregates(h, ql, row, output), SubstituteAggregates(h, qr, row, output);
      SubstituteAggregates(h, Binary(op, ql, qr), row, output)
          == Combine(l, r, ApplyBinaryOp(h, op, OrNull(l), OrNull(r)))
    ensures HasAggregate(Binary(op, ql, qr)) == (HasAggregate(ql) || HasAggregate(qr))
  {
    hide ApplyBinary, ApplyBinaryOp, Eval, SubstituteAggregates, Combine;
    EvalUnfolds(h, op, ql, qr, row, output);
    SubstituteUnfolds(h, op, ql, qr, row, output);
  }

  /** What the rewriting does to an alias-free expression that is not rebuilt. */
  lemma RewrittenTo(projections: seq<Expr>, e: Expr, p: Expr)
    requires AliasFree(e) && (forall k :: 0 <= k < |projections| ==> IsItem(projections[k]))
    requires FirstMatch(projections, e) == Some(p)
    ensures p in projections && (p == e || (p.Aliased? && p.expr == e))
  {
    var k :| 0 <= k < |projections| && projections[k] == p;
    assert IsItem(projections[k]);
    MatchingItem(p, e);
  }

  lemma SelectedIsFound(projections: seq<Expr>, e: Expr)
    requires SelectedAggregate(projections, e)
    ensures e in projections || FirstMatch(projections, e).Some?
  {
    if e !in projections {
      var a :| Aliased(e, a) in projections;
      var k :| 0 <= k < |projections| && projections[k] == Aliased(e, a);
      assert StrictlyMatches(projections[k], e);
    }
  }

  lemma {:induction false} TermAliasFree(e: Expr)
    requires IsTerm(e)
    ensures AliasFree(e)
  {
    match e
    case Binary(_, l, r) =>
      TermAliasFree(l);
      TermAliasFree(r);
    case Not(i) => TermAliasFree(i);
    case IsNull(i) => TermAliasFree(i);
    case IsNotNull(i) => TermAliasFree(i);
    case _ =>
  }

  /** A SELECT item that carries a compound term evaluated successfully, so the term has no aggregate. */
  lemma ItemHasNoAggregate(h: Host, groups: seq<Expr>, projections: seq<Expr>, rows: seq<Record>, schema: Schema,
                           ms: seq<Digest>, row: Record, e: Expr, p: Expr)
    requires Projected(h, groups, projections, rows, schema, ms, row)
    requires (e.Binary? || IsUnary(e)) && p in projections && (p == e || (p.Aliased? && p.expr == e))
    ensures !HasAggregate(e)
  {
    hide Digested, GroupRow, DistinctNames, ProjectSchema, Eval;
    var aggs := AggregateProjections(projections);
    var inner := AggregateSchema(h, groups, aggs);
    var k :| 0 <= k < |projections| && projections[k] == p;
    ProjectValuesAt(h, projections, GroupRow(h, aggs, ms), inner, k);
    assert Eval(h, e, GroupRow(h, aggs, ms), inner).Ok?;
    if HasAggregate(e) {
      AggregateFails(h, e, GroupRow(h, aggs, ms), inner);
    }
  }

  /** The rewriting moves no aggregate in or out. */
  lemma {:induction false} RewriteKeepsAggregates(e: Expr, projections: seq<Expr>)
    requires IsTerm(e) && forall k :: 0 <= k < |projections| ==> IsItem(projections[k])
    ensures HasAggregate(RewriteHaving(e, projections)) <==> HasAggregate(e)
  {
    hide FirstMatch, IsItem;
    TermAliasFree(e);
    var found := FirstMatch(projections, e);
    if found.Some? {
      RewrittenTo(projections, e, found.value);
    } else {
      match e
      case Binary(_, l, r) =>
        RewriteKeepsAggregates(l, projections);
        RewriteKeepsAggregates(r, projections);
      case Not(i) => RewriteKeepsAggregates(i, projections);
      case IsNull(i) => RewriteKeepsAggregates(i, projections);
      case IsNotNull(i) => RewriteKeepsAggregates(i, projections);
      case _ =>
    }
  }

  // ----- what every predicate means -----

  /** NOT, IS NULL and IS NOT NULL over something without aggregates. */
  predicate IsUnary(e: Expr) {
    e.Not? || e.IsNull? || e.IsNotNull?
  }

  function WithInner(e: Expr, inner: Expr): Expr
    requires IsUnary(e)
  {
    match e
    case Not(_) => Not(inner)
    case IsNull(_) => IsNull(inner)
    case IsNotNull(_) => IsNotNull(inner)
  }

  lemma RewriteUnfolds(e: Expr, projections: seq<Expr>)
    requires FirstMatch(projections, e).None?
    ensures e.Binary? ==>
      RewriteHaving(e, projections) == Binary(e.op, RewriteHaving(e.left, projections),
          RewriteHaving(e.right, projections))
    ensures IsUnary(e) ==> RewriteHaving(e, projections) == WithInner(e, RewriteHaving(e.inner, projections))
    ensures !e.Binary? && !IsUnary(e) ==> RewriteHaving(e, projections) == e
  {
  }

  /** An aggregate stands below NOT, IS NULL or IS NOT NULL. */
  predicate Buries(e: Expr) {
    match e
    case Binary(_, l, r) => Buries(l) || Buries(r)
    case Not(i) => HasAggregate(i)
    case IsNull(i) => HasAggregate(i)
    case IsNotNull(i) => HasAggregate(i)
    case _ => false
  }

  /** Null-strict application; beside an aggregate (`reduced`) by the operator table of HAVING predicates. */
  function BinaryValue(h: Host, reduced: bool, op: BinaryOp, l: Value, r: Value): Result<Value> {
    if l.Null? || r.Null? then Ok(Null)
    else if reduced && IsUnsupported(op) then ApplyBinaryOp(h, op, l, r)
    else ApplyBinary(h, op, l, r)
  }

  /** The SELECT items that the rewriting still looks at below `e`: none inside an item it has put in place. */
  ghost function ItemsBelow(e: Expr, projections: seq<Expr>): seq<Expr> {
    if FirstMatch(projections, e).Some? then [] else projections
  }

  /** A compound term replaced by an aliased item is evaluated as a whole, with every operator. */
  ghost predicate ReducedBelow(e: Expr, projections: seq<Expr>, reduced: bool) {
    reduced && !(FirstMatch(projections, e).Some? && FirstMatch(projections, e).value.Aliased?)
  }

  /** The term as written, with each column read from the output column of its name, and each aggregate from
      the output column of the SELECT item that the rewriting puts in its place. */
  ghost function Reads(h: Host, e: Expr, projections: seq<Expr>, reduced: bool, row: Record,
                       output: Schema): Result<Value> {
    match e
    case Aggregate(_, _, _) => Lookup(output, DisplayName(h, RewriteHaving(e, projections)), row)
    case Binary(op, l, r) =>
      var below, still := ItemsBelow(e, projections), ReducedBelow(e, projections, reduced);
      var lv :- Reads(h, l, below, still, row, output);
      var rv :- Reads(h, r, below, still, row, output);
      BinaryValue(h, still, op, lv, rv)
    case Not(i) =>
      var v :- Reads(h, i, projections, false, row, output);
      NotValue(v)
    case IsNull(i) =>
      var v :- Reads(h, i, projections, false, row, output);
      Ok(Boolean(v.Null?))
    case IsNotNull(i) =>
      var v :- Reads(h, i, projections, false, row, output);
      Ok(Boolean(!v.Null?))
    case _ => Eval(h, e, row, output)
  }

  /** The two evaluators give what the term reads, the row evaluator where it can. */
  ghost predicate Gives(h: Host, q: Expr, e: Expr, projections: seq<Expr>, row: Record, output: Schema) {
    && SubstituteAggregates(h, q, row, output) == Reads(h, e, projections, true, row, output)
    && (!HasAggregate(q) ==> Eval(h, q, row, output) == Reads(h, e, projections, false, row, output))
  }

  lemma ReadsBinary(h: Host, e: Expr, projections: seq<Expr>, reduced: bool, row: Record, output: Schema)
    requires e.Binary?
    ensures var below, still := ItemsBelow(e, projections), ReducedBelow(e, projections, reduced);
      var lv, rv := Reads(h, e.left, below, still, row, output), Reads(h, e.right, below, still, row, output);
      Reads(h, e, projections, reduced, row, output)
      == Combine(lv, rv, BinaryValue(h, still, e.op, OrNull(lv), OrNull(rv)))
  {
    hide ApplyBinary, ApplyBinaryOp, Eval;
  }

  predicate IsTruth(r: Result<Value>) {
    r.Ok? ==> r.value.Null? || r.value.Boolean?
  }

  lemma FormulaReadsTruth(h: Host, e: Expr, projections: seq<Expr>, reduced: bool, row: Record, output: Schema)
    requires IsFormula(e)
    ensures IsTruth(Reads(h, e, projections, reduced, row, output))
  {
    hide Eval, TryCmp, ValueEq, Lookup, Reads, ItemsBelow, ReducedBelow;
    if e.Binary? {
      ReadsBinary(h, e, projections, reduced, row, output);
    } else {
      UnaryReadsTruth(h, e, projections, reduced, row, output);
    }
  }

  lemma UnaryReadsTruth(h: Host, e: Expr, projections: seq<Expr>, reduced: bool, row: Record, output: Schema)
    requires IsUnary(e)
    ensures IsTruth(Reads(h, e, projections, reduced, row, output))
  {
    hide Eval;
  }

  /** The table of HAVING predicates agrees with the reading, on truth values below AND and OR. */
  lemma ReducedOperator(h: Host, op: BinaryOp, l: Value, r: Value)
    requires !l.Null? && !r.Null? && (op in {AndOp, OrOp} ==> l.Boolean? && r.Boolean?)
    ensures ApplyBinaryOp(h, op, l, r) == BinaryValue(h, true, op, l, r)
  {
    hide ApplyBinary, ApplyBinaryOp;
    if !IsUnsupported(op) {
      SameOperator(h, op, l, r);
    }
  }

  /** A compound term that the rewriting leaves in place. */
  lemma BinaryGives(h: Host, e: Expr, ql: Expr, qr: Expr, projections: seq<Expr>, row: Record, output: Schema)
    requires IsTerm(e) && e.Binary? && FirstMatch(projections, e).None?
    requires Gives(h, ql, e.left, projections, row, output) && Gives(h, qr, e.right, projections, row, output)
    ensures Gives(h, Binary(e.op, ql, qr), e, projections, row, output)
  {
    hide Eval, SubstituteAggregates, Reads, HasAggregate, ApplyBinary, ApplyBinaryOp, FirstMatch;
    BinaryUnfolds(h, e.op, ql, qr, row, output);
    ReadsBinary(h, e, projections, true, row, output);
    ReadsBinary(h, e, projections, false, row, output);
    var lv := OrNull(Reads(h, e.left, projections, true, row, output));
    var rv := OrNull(Reads(h, e.right, projections, true, row, output));
    if e.op in {AndOp, OrOp} {
      FormulaReadsTruth(h, e.left, projections, true, row, output);
      FormulaReadsTruth(h, e.right, projections, true, row, output);
    }
    if !lv.Null? && !rv.Null? {
      ReducedOperator(h, e.op, lv, rv);
    }
  }

  lemma UnaryGives(h: Host, e: Expr, q: Expr, projections: seq<Expr>, row: Record, output: Schema)
    requires IsUnary(e) && !HasAggregate(q)
    requires Gives(h, q, e.inner, projections, row, output)
    ensures Gives(h, WithInner(e, q), e, projections, row, output)
  {
    var v := Eval(h, q, row, output);
    assert v == Reads(h, e.inner, projections, false, row, output);
    assert Eval(h, WithInner(e, q), row, output) == Reads(h, e, projections, false, row, output);
    assert Reads(h, e, projections, true, row, output) == Reads(h, e, projections, false, row, output);
  }

  /** A term as it stands gives its own reading without SELECT items. */
  lemma {:induction false} PlainGives(h: Host, e: Expr, row: Record, output: Schema)
    requires IsTerm(e) && !HasAggregate(e)
    ensures Gives(h, e, e, [], row, output)
  {
    if e.Binary? {
      hide Gives, Reads;
      PlainGives(h, e.left, row, output);
      PlainGives(h, e.right, row, output);
      BinaryGives(h, e, e.left, e.right, [], row, output);
    } else if IsUnary(e) {
      hide Gives, Reads;
      PlainGives(h, e.inner, row, output);
      UnaryGives(h, e, e.inner, [], row, output);
    }
  }

  /** A literal, column, aggregate or conditional. */
  predicate IsLeaf(e: Expr) {
    e.Lit? || e.Column? || (e.Aggregate? && AliasFree(e)) || (e.If? && AliasFree(e))
  }

  lemma LeafGives(h: Host, e: Expr, projections: seq<Expr>, row: Record, output: Schema)
    requires IsLeaf(e) && forall k :: 0 <= k < |projections| ==> IsItem(projections[k])
    ensures Gives(h, RewriteHaving(e, projections), e, projections, row, output)
  {
    hide FirstMatch, IsItem;
    var found := FirstMatch(projections, e);
    var q := RewriteHaving(e, projections);
    if found.Some? {
      RewrittenTo(projections, e, found.value);
    } else {
      RewriteUnfolds(e, projections);
    }
    assert q == e || (q.Aliased? && q.expr == e);
    if e.Aggregate? {
      assert HasAggregate(e);
      assert HasAggregate(q);
      assert SubstituteAggregates(h, q, row, output) == Lookup(output, DisplayName(h, q), row);
    } else {
      assert SubstituteAggregates(h, e, row, output) == Eval(h, e, row, output);
      assert Eval(h, q, row, output) == Eval(h, e, row, output);
    }
  }

  /** A compound term that the rewriting replaces by a SELECT item. */
  lemma FoundGives(h: Host, groups: seq<Expr>, projections: seq<Expr>, rows: seq<Record>, schema: Schema,
                   ms: seq<Digest>, row: Record, e: Expr, output: Schema)
    requires Projected(h, groups, projections, rows, schema, ms, row)
    requires IsTerm(e) && (e.Binary? || IsUnary(e)) && FirstMatch(projections, e).Some?
    ensures Gives(h, RewriteHaving(e, projections), e, projections, row, output)
  {
    hide Gives, Reads, Digested, DistinctNames, ProjectSchema, ProjectValues;
    var p := FirstMatch(projections, e).value;
    assert RewriteHaving(e, projections) == p;
    TermAliasFree(e);
    RewrittenTo(projections, e, p);
    ItemHasNoAggregate(h, groups, projections, rows, schema, ms, row, e, p);
    assert StrictlyMatches(p, e);
    PlainGives(h, e, row, output);
    ItemReads(h, e, projections, row, output);
    if p != e {
      AliasGives(h, p, e, projections, row, output);
    } else {
      ExactGives(h, e, projections, row, output);
    }
  }

  lemma ItemReads(h: Host, e: Expr, projections: seq<Expr>, row: Record, output: Schema)
    requires e.Binary? && FirstMatch(projections, e).Some?
    ensures forall m :: Reads(h, e, projections, m, row, output)
                     == Reads(h, e, [], m && !FirstMatch(projections, e).value.Aliased?, row, output)
  {
    hide BinaryValue, Eval;
    forall m
      ensures Reads(h, e, projections, m, row, output)
           == Reads(h, e, [], m && !FirstMatch(projections, e).value.Aliased?, row, output)
    {
      ReadsBinary(h, e, projections, m, row, output);
      ReadsBinary(h, e, [], m && !FirstMatch(projections, e).value.Aliased?, row, output);
    }
  }

  lemma AliasGives(h: Host, q: Expr, e: Expr, projections: seq<Expr>, row: Record, output: Schema)
    requires q.Aliased? && q.expr == e && e.Binary? && !HasAggregate(e)
    requires Gives(h, e, e, [], row, output)
    requires forall m :: Reads(h, e, projections, m, row, output) == Reads(h, e, [], false, row, output)
    ensures Gives(h, q, e, projections, row, output)
  {
    hide Reads;
  }

  lemma ExactGives(h: Host, e: Expr, projections: seq<Expr>, row: Record, output: Schema)
    requires Gives(h, e, e, [], row, output)
    requires forall m :: Reads(h, e, projections, m, row, output) == Reads(h, e, [], m, row, output)
    ensures Gives(h, e, e, projections, row, output)
  {
    hide Reads;
  }

  /** Only compound terms with a binary operator are ever replaced by an item. */
  lemma UnaryIsNotFound(e: Expr, projections: seq<Expr>)
    requires IsUnary(e) && AliasFree(e) && forall k :: 0 <= k < |projections| ==> IsItem(projections[k])
    ensures FirstMatch(projections, e).None?
  {
    var found := FirstMatch(projections, e);
    assert !StrictlyMatches(e, e);
    if found.Some? {
      RewrittenTo(projections, e, found.value);
    }
  }

  lemma TermShape(e: Expr)
    requires IsTerm(e)
    ensures IsLeaf(e) || IsUnary(e) || e.Binary?
    ensures IsUnary(e) ==> IsTerm(e.inner)
    ensures e.Binary? ==> IsTerm(e.left) && IsTerm(e.right)
  {
  }

  lemma {:induction false} NothingBuried(e: Expr)
    requires !HasAggregate(e)
    ensures !Buries(e)
  {
    if e.Binary? {
      NothingBuried(e.left);
      NothingBuried(e.right);
    }
  }

  /** The rewriting of any term that buries no aggregate gives what the term reads. */
  lemma {:induction false} RewrittenGives(h: Host, groups: seq<Expr>, projections: seq<Expr>, rows: seq<Record>,
                                          schema: Schema, ms: seq<Digest>, row: Record, e: Expr, output: Schema)
    requires Projected(h, groups, projections, rows, schema, ms, row)
    requires IsTerm(e) && !Buries(e)
    ensures Gives(h, RewriteHaving(e, projections), e, projections, row, output)
  {
    hide Gives, Reads, FirstMatch, Digested, DistinctNames, ProjectSchema, ProjectValues, RewriteHaving, IsTerm, IsItem;
    TermShape(e);
    TermAliasFree(e);
    if IsLeaf(e) {
      LeafGives(h, e, projections, row, output);
    } else if IsUnary(e) {
      UnaryIsNotFound(e, projections);
      RewriteUnfolds(e, projections);
      NothingBuried(e.inner);
      RewrittenGives(h, groups, projections, rows, schema, ms, row, e.inner, output);
      RewriteKeepsAggregates(e.inner, projections);
      UnaryGives(h, e, RewriteHaving(e.inner, projections), projections, row, output);
    } else if FirstMatch(projections, e).Some? {
      FoundGives(h, groups, projections, rows, schema, ms, row, e, output);
    } else {
      RewriteUnfolds(e, projections);
      RewrittenGives(h, groups, projections, rows, schema, ms, row, e.left, output);
      RewrittenGives(h, groups, projections, rows, schema, ms, row, e.right, output);
      BinaryGives(h, e, RewriteHaving(e.left, projections), RewriteHaving(e.right, projections),
                  projections, row, output);
    }
  }

  lemma SubstituteFailsBelow(h: Host, op: BinaryOp, l: Expr, r: Expr, row: Record, output: Schema)
    requires SubstituteAggregates(h, l, row, output).Err? || SubstituteAggregates(h, r, row, output).Err?
    ensures SubstituteAggregates(h, Binary(op, l, r), row, output).Err?
  {
    hide ApplyBinaryOp, Eval;
  }

  lemma {:induction false} BuriesHasAggregate(e: Expr)
    requires Buries(e)
    ensures HasAggregate(e)
  {
    match e
    case Binary(_, l, r) => if Buries(l) { BuriesHasAggregate(l); } else { BuriesHasAggregate(r); }
    case _ =>
  }

  lemma SubstituteOfUnary(h: Host, e: Expr, row: Record, output: Schema)
    requires IsUnary(e)
    ensures SubstituteAggregates(h, e, row, output) == Eval(h, e, row, output)
  {
    hide Eval;
  }

  /** A rewritten term with a buried aggregate fails on every projected row. */
  lemma {:induction false} BuriedFails(h: Host, groups: seq<Expr>, projections: seq<Expr>, rows: seq<Record>,
                                       schema: Schema, ms: seq<Digest>, row: Record, e: Expr, output: Schema)
    requires Projected(h, groups, projections, rows, schema, ms, row)
    requires IsTerm(e) && Buries(e)
    ensures HasAggregate(RewriteHaving(e, projections))
    ensures SubstituteAggregates(h, RewriteHaving(e, projections), row, output).Err?
  {
    hide SubstituteAggregates, Eval, RewriteHaving, FirstMatch, Digested, DistinctNames, ProjectSchema, ProjectValues,
         IsTerm;
    TermShape(e);
    BuriesHasAggregate(e);
    RewriteKeepsAggregates(e, projections);
    var found := FirstMatch(projections, e);
    if found.Some? {
      TermAliasFree(e);
      RewrittenTo(projections, e, found.value);
      ItemHasNoAggregate(h, groups, projections, rows, schema, ms, row, e, found.value);
    } else {
      RewriteUnfolds(e, projections);
      if IsUnary(e) {
        SubstituteOfUnary(h, RewriteHaving(e, projections), row, output);
        AggregateFails(h, RewriteHaving(e, projections), row, output);
      } else {
        var l, r := RewriteHaving(e.left, projections), RewriteHaving(e.right, projections);
        if Buries(e.left) {
          BuriedFails(h, groups, projections, rows, schema, ms, row, e.left, output);
        } else {
          BuriedFails(h, groups, projections, rows, schema, ms, row, e.right, output);
        }
        SubstituteFailsBelow(h, e.op, l, r, row, output);
      }
    }
  }

  lemma ProjectedItems(h: Host, groups: seq<Expr>, projections: seq<Expr>, rows: seq<Record>, schema: Schema,
                       ms: seq<Digest>, row: Record)
    requires Projected(h, groups, projections, rows, schema, ms, row)
    ensures forall k :: 0 <= k < |projections| ==> IsItem(projections[k])
  {
  }

  /** For every predicate: an error if it buries an aggregate, otherwise the truth of what it reads, beside an
      aggregate by the reduced operator table. */
  lemma HavingMeaning(h: Host, groups: seq<Expr>, projections: seq<Expr>, rows: seq<Record>, schema: Schema,
                      ms: seq<Digest>, row: Record, e: Expr, output: Schema)
    requires Projected(h, groups, projections, rows, schema, ms, row) && IsFormula(e)
    ensures var verdict := EvalPredicate(h, RewriteHaving(e, projections), row, output);
            if Buries(e) then verdict.Err?
            else verdict == var v :- Reads(h, e, projections, HasAggregate(e), row, output); AsTruth(v)
  {
    hide Projected, RewriteHaving, SubstituteAggregates, Eval, Buries, Reads, IsItem, HasAggregate;
    ProjectedItems(h, groups, projections, rows, schema, ms, row);
    RewriteKeepsAggregates(e, projections);
    if Buries(e) {
      BuriedFails(h, groups, projections, rows, schema, ms, row, e, output);
    } else {
      RewrittenGives(h, groups, projections, rows, schema, ms, row, e, output);
    }
  }

  // ----- faithful predicates -----

  /** A selected aggregate reads as its fold over the group. */
  lemma SelectedReads(h: Host, groups: seq<Expr>, projections: seq<Expr>, rows: seq<Record>, schema: Schema,
                      ms: seq<Digest>, row: Record, e: Expr)
    requires rows != [] && Projected(h, groups, projections, rows, schema, ms, row)
    requires IsLeaf(e) && e.Aggregate? && SelectedAggregate(projections, e)
    ensures Lookup(OutputOf(h, groups, projections), DisplayName(h, RewriteHaving(e, projections)), row)
         == GroupValue(h, e, rows, schema)
  {
    hide Digested, DistinctNames, ProjectSchema, ProjectValues, AggregateOver, AggregateSchema, AggregateProjections;
    var p := RewriteHaving(e, projections);
    SelectedIsFound(projections, e);
    if FirstMatch(projections, e).Some? {
      RewrittenTo(projections, e, p);
    }
    AggregateReads(h, groups, projections, rows, schema, ms, row, p, e);
  }

  lemma SomeGroupRow(h: Host, groups: seq<Expr>, projections: seq<Expr>, rows: seq<Record>, schema: Schema,
                     ms: seq<Digest>, row: Record, c: string)
    requires rows != [] && Projected(h, groups, projections, rows, schema, ms, row)
    requires Column(c) in groups && ColumnKept(projections, c)
    ensures Eval(h, Column(c), row, OutputOf(h, groups, projections)) == GroupValue(h, Column(c), rows, schema)
  {
    hide Projected, ProjectSchema, AggregateSchema, AggregateProjections, Lookup;
    ColumnReads(h, groups, projections, rows, schema, ms, row, c);
  }

  /** Which SELECT items and operator table the reading of a part of a faithful predicate uses. */
  ghost predicate ReadsFaithfully(e: Expr, projections: seq<Expr>, items: seq<Expr>, reduced: bool) {
    (items == projections || (items == [] && !HasAggregate(e))) && (reduced ==> !Exposes(e))
  }

  lemma GroupBinary(h: Host, e: Expr, rows: seq<Record>, schema: Schema)
    requires rows != [] && e.Binary?
    ensures var lv, rv := GroupValue(h, e.left, rows, schema), GroupValue(h, e.right, rows, schema);
      GroupValue(h, e, rows, schema) == Combine(lv, rv, ApplyBinary(h, e.op, OrNull(lv), OrNull(rv)))
  {
    hide ApplyBinary, Eval, AggregateOver;
  }

  lemma UnaryReads(h: Host, e: Expr, items: seq<Expr>, reduced: bool, row: Record, output: Schema,
                   rows: seq<Record>, schema: Schema)
    requires rows != [] && IsUnary(e)
    requires Reads(h, e.inner, items, false, row, output) == GroupValue(h, e.inner, rows, schema)
    ensures Reads(h, e, items, reduced, row, output) == GroupValue(h, e, rows, schema)
  {
    hide Eval, AggregateOver;
  }

  /** A faithful term reads as its value over the group. */
  lemma {:induction false} FaithfulReads(h: Host, groups: seq<Expr>, projections: seq<Expr>, rows: seq<Record>,
                                         schema: Schema, ms: seq<Digest>, row: Record, e: Expr, items: seq<Expr>,
                                         reduced: bool)
    requires rows != [] && Projected(h, groups, projections, rows, schema, ms, row)
    requires IsTerm(e) && Faithful(e, groups, projections) && ReadsFaithfully(e, projections, items, reduced)
    ensures Reads(h, e, items, reduced, row, OutputOf(h, groups, projections)) == GroupValue(h, e, rows, schema)
    decreases e
  {
    hide Reads, GroupValue, FirstMatch, Projected, OutputOf, IsTerm, BinaryValue, ApplyBinary, RewriteHaving;
    TermShape(e);
    var output := OutputOf(h, groups, projections);
    if e.Binary? {
      var below, still := ItemsBelow(e, items), ReducedBelow(e, items, reduced);
      if items == projections && FirstMatch(projections, e).Some? {
        ProjectedItems(h, groups, projections, rows, schema, ms, row);
        TermAliasFree(e);
        RewrittenTo(projections, e, FirstMatch(projections, e).value);
        ItemHasNoAggregate(h, groups, projections, rows, schema, ms, row, e, FirstMatch(projections, e).value);
      }
      FaithfulReads(h, groups, projections, rows, schema, ms, row, e.left, below, still);
      FaithfulReads(h, groups, projections, rows, schema, ms, row, e.right, below, still);
      ReadsBinary(h, e, items, reduced, row, output);
      GroupBinary(h, e, rows, schema);
      var lv, rv := OrNull(GroupValue(h, e.left, rows, schema)), OrNull(GroupValue(h, e.right, rows, schema));
      if !lv.Null? && !rv.Null? {
        SupportedValue(h, still, e.op, lv, rv);
      }
    } else if IsUnary(e) {
      FaithfulReads(h, groups, projections, rows, schema, ms, row, e.inner, items, false);
      UnaryReads(h, e, items, reduced, row, output, rows, schema);
    } else {
      LeafReads(h, groups, projections, rows, schema, ms, row, e, items, reduced);
    }
  }

  lemma SupportedValue(h: Host, reduced: bool, op: BinaryOp, l: Value, r: Value)
    requires !(reduced && IsUnsupported(op)) && !l.Null? && !r.Null?
    ensures BinaryValue(h, reduced, op, l, r) == ApplyBinary(h, op, l, r)
  {
  }

  lemma LeafReads(h: Host, groups: seq<Expr>, projections: seq<Expr>, rows: seq<Record>, schema: Schema,
                  ms: seq<Digest>, row: Record, e: Expr, items: seq<Expr>, reduced: bool)
    requires rows != [] && Projected(h, groups, projections, rows, schema, ms, row)
    requires IsLeaf(e) && Faithful(e, groups, projections) && ReadsFaithfully(e, projections, items, reduced)
    ensures Reads(h, e, items, reduced, row, OutputOf(h, groups, projections)) == GroupValue(h, e, rows, schema)
  {
    hide Projected, OutputOf, Lookup, RewriteHaving, AggregateOver;
    match e
    case Column(c) => SomeGroupRow(h, groups, projections, rows, schema, ms, row, c);
    case Aggregate(_, _, _) => SelectedReads(h, groups, projections, rows, schema, ms, row, e);
    case _ =>
  }

  /** Evaluating the rewritten predicate on a group's projected row is deciding the original predicate
      on the group. */
  lemma RewritePreservesMeaning(h: Host, groups: seq<Expr>, projections: seq<Expr>, rows: seq<Record>, schema: Schema,
                                ms: seq<Digest>, row: Record, e: Expr)
    requires rows != [] && Projected(h, groups, projections, rows, schema, ms, row)
    requires IsHavingPredicate(e, groups, projections)
    ensures EvalPredicate(h, RewriteHaving(e, projections), row, OutputOf(h, groups, projections))
        == GroupTruth(h, e, rows, schema)
  {
    hide Projected, OutputOf, RewriteHaving, EvalPredicate, GroupValue, Faithful, Reads, Buries;
    var output := OutputOf(h, groups, projections);
    HavingMeaning(h, groups, projections, rows, schema, ms, row, e, output);
    FaithfulBuriesNothing(e, groups, projections);
    FaithfulReads(h, groups, projections, rows, schema, ms, row, e, projections, HasAggregate(e));
  }

  lemma {:induction false} FaithfulBuriesNothing(e: Expr, groups: seq<Expr>, projections: seq<Expr>)
    requires Faithful(e, groups, projections)
    ensures !Buries(e)
  {
    if e.Binary? {
      FaithfulBuriesNothing(e.left, groups, projections);
      FaithfulBuriesNothing(e.right, groups, projections);
    }
  }

  // ----- the whole pipeline: aggregate, project, filter -----

  lemma {:induction false} RowsOfKeysAt(h: Host, aggs: seq<Expr>, ds: seq<Digest>, keys: seq<Key>, i: nat)
    requires i < |keys|
    ensures |RowsOfKeys(h, aggs, ds, keys)| == |keys|
    ensures RowsOfKeys(h, aggs, ds, keys)[i] == GroupRow(h, aggs, Members(h, ds, keys[i]))
  {
    hide GroupRow, Members;
    var n := |keys| - 1;
    if n > 0 {
      RowsOfKeysAt(h, aggs, ds, keys[..n], if i < n then i else 0);
    } else {
      assert keys[..n] == [];
    }
  }

  lemma DigestsAreDigested(h: Host, groups: seq<Expr>, aggs: seq<Expr>, rows: seq<Record>, schema: Schema,
                           ds: seq<Digest>)
    requires Digests(h, groups, aggs, rows, schema) == Ok(ds)
    ensures Digested(h, groups, aggs, rows, schema, ds)
  {
    hide RowDigest;
    if rows != [] {
      DigestsAt(h, groups, aggs, rows, schema, 0);
    }
    forall i | 0 <= i < |rows|
      ensures RowDigest(h, groups, aggs, rows[i], schema) == Ok(ds[i])
    {
      DigestsAt(h, groups, aggs, rows, schema, i);
    }
  }

  /** The conditions on a grouped SELECT under which HAVING is claimed. */
  ghost predicate Claimed(h: Host, groups: seq<Expr>, projections: seq<Expr>, e: Expr) {
    var inner := AggregateSchema(h, groups, AggregateProjections(projections));
    && (forall k :: 0 <= k < |projections| ==> IsItem(projections[k]))
    && DistinctNames(inner) && DistinctNames(ProjectSchema(h, projections, inner))
    && IsHavingPredicate(e, groups, projections)
  }

  /** The `i`-th group of the input, in key order. */
  ghost function GroupAt(h: Host, rows: seq<Record>, ds: seq<Digest>, i: nat): seq<Record>
    requires |rows| == |ds| && i < |OrderedKeys(h, ds)|
  {
    MemberRows(h, rows, ds, OrderedKeys(h, ds)[i])
  }

  lemma KeyHasMembers(h: Host, ds: seq<Digest>, i: nat)
    requires i < |OrderedKeys(h, ds)|
    ensures Members(h, ds, OrderedKeys(h, ds)[i]) != []
  {
    OrderedKeysSpec(h, ds);
    assert OrderedKeys(h, ds)[i] in Elements(OrderedKeys(h, ds));
    MembersExist(h, ds, OrderedKeys(h, ds)[i]);
  }

  /** One group: the verdict on its projected row is the verdict on the group. */
  lemma GroupVerdict(h: Host, groups: seq<Expr>, projections: seq<Expr>, e: Expr, rows: seq<Record>, schema: Schema,
                     ds: seq<Digest>, i: nat, row: Record)
    requires Claimed(h, groups, projections, e)
    requires Digested(h, groups, AggregateProjections(projections), rows, schema, ds) && i < |OrderedKeys(h, ds)|
    requires ProjectValues(h, projections, GroupRow(h, AggregateProjections(projections),
        Members(h, ds, OrderedKeys(h, ds)[i])),
                           AggregateSchema(h, groups, AggregateProjections(projections))) == Ok(row)
    ensures GroupAt(h, rows, ds, i) != []
    ensures EvalPredicate(h, RewriteHaving(e, projections), row, OutputOf(h, groups, projections))
         == GroupTruth(h, e, GroupAt(h, rows, ds, i), schema)
  {
    hide AggregateProjections, AggregateSchema, ProjectValues, OrderedKeys, GroupRow, DistinctNames, ProjectSchema,
         EvalPredicate, GroupTruth, IsItem, RewriteHaving, IsHavingPredicate;
    var key := OrderedKeys(h, ds)[i];
    KeyHasMembers(h, ds, i);
    MembersDigested(h, groups, AggregateProjections(projections), rows, schema, ds, key);
    RewritePreservesMeaning(h, groups, projections, MemberRows(h, rows, ds, key), schema, Members(h, ds, key), row, e);
  }

  /** The projected rows of a grouped SELECT, one per group. */
  ghost function ProjectedGroups(h: Host, groups: seq<Expr>, projections: seq<Expr>,
                                 ds: seq<Digest>): Result<seq<Record>> {
    var aggs := AggregateProjections(projections);
    ProjectRows(h, projections, GroupRows(h, aggs, ds), AggregateSchema(h, groups, aggs),
        OutputOf(h, groups, projections))
  }

  lemma ProjectedGroupAt(h: Host, groups: seq<Expr>, projections: seq<Expr>, ds: seq<Digest>, i: nat)
    requires ProjectedGroups(h, groups, projections, ds).Ok? && i < |OrderedKeys(h, ds)|
    ensures |ProjectedGroups(h, groups, projections, ds).value| == |OrderedKeys(h, ds)|
    ensures ProjectValues(h, projections, GroupRow(h, AggregateProjections(projections),
        Members(h, ds, OrderedKeys(h, ds)[i])),
                          AggregateSchema(h, groups, AggregateProjections(projections)))
         == Ok(ProjectedGroups(h, groups, projections, ds).value[i])
  {
    hide AggregateProjections, AggregateSchema, ProjectValues, OrderedKeys, GroupRow, OutputOf, ProjectRows;
    var aggs := AggregateProjections(projections);
    ProjectRowsPointwise(h, projections, GroupRows(h, aggs, ds), AggregateSchema(h, groups, aggs),
        OutputOf(h, groups, projections));
    RowsOfKeysAt(h, aggs, ds, OrderedKeys(h, ds), i);
  }

  lemma {:induction false} RowsOfKeysCount(h: Host, aggs: seq<Expr>, ds: seq<Digest>, keys: seq<Key>)
    ensures |RowsOfKeys(h, aggs, ds, keys)| == |keys|
  {
    if keys != [] {
      RowsOfKeysCount(h, aggs, ds, keys[..|keys| - 1]);
    }
  }

  /** HAVING keeps exactly the projected rows of the groups that satisfy the predicate as written. */
  lemma HavingKeepsGroups(h: Host, groups: seq<Expr>, projections: seq<Expr>, e: Expr, rows: seq<Record>,
                          schema: Schema,
                          ds: seq<Digest>, out: seq<Record>)
    requires Claimed(h, groups, projections, e)
    requires Digests(h, groups, AggregateProjections(projections), rows, schema) == Ok(ds)
    requires ProjectedGroups(h, groups, projections, ds) == Ok(out)
    requires FilterRows(h, RewriteHaving(e, projections), out, OutputOf(h, groups, projections)).Ok?
    ensures |rows| == |ds| && |out| == |OrderedKeys(h, ds)|
    ensures forall i :: 0 <= i < |out| ==> GroupAt(h, rows, ds, i) != []
    ensures var flags := seq(|out|, i requires 0 <= i < |out| =>
              GroupTruth(h, e, GroupAt(h, rows, ds, i), schema) == Ok(true));
      FilterRows(h, RewriteHaving(e, projections), out, OutputOf(h, groups, projections)) == Ok(Select(out, flags))
  {
    hide Claimed, FilterRows, OrderedKeys, OutputOf, RewriteHaving, EvalPredicate, GroupTruth, GroupAt, RowDigest,
         Select, AggregateProjections, AggregateSchema, ProjectValues, Digests, GroupRow, ProjectedGroups;
    var q, output := RewriteHaving(e, projections), OutputOf(h, groups, projections);
    DigestsAreDigested(h, groups, AggregateProjections(projections), rows, schema, ds);
    ProjectedGroupCount(h, groups, projections, ds, out);
    forall i | 0 <= i < |out|
      ensures GroupAt(h, rows, ds, i) != []
      ensures EvalPredicate(h, q, out[i], output) == GroupTruth(h, e, GroupAt(h, rows, ds, i), schema)
    {
      ProjectedGroupAt(h, groups, projections, ds, i);
      GroupVerdict(h, groups, projections, e, rows, schema, ds, i, out[i]);
    }
    FilterKeepsTrueRows(h, q, out, output);
    var flags := seq(|out|, i requires 0 <= i < |out| => GroupTruth(h, e, GroupAt(h, rows, ds, i), schema) == Ok(true));
    assert flags == Truths(h, q, out, output);
  }

  lemma ProjectedGroupCount(h: Host, groups: seq<Expr>, projections: seq<Expr>, ds: seq<Digest>, out: seq<Record>)
    requires ProjectedGroups(h, groups, projections, ds) == Ok(out)
    ensures |out| == |OrderedKeys(h, ds)|
  {
    hide AggregateProjections, AggregateSchema, ProjectValues, OrderedKeys, GroupRow, OutputOf, ProjectRows;
    var aggs := AggregateProjections(projections);
    ProjectRowsPointwise(h, projections, GroupRows(h, aggs, ds), AggregateSchema(h, groups, aggs),
        OutputOf(h, groups, projections));
    RowsOfKeysCount(h, aggs, ds, OrderedKeys(h, ds));
  }

  lemma FilterUnfolds(input: Plan, e: Expr, schema: Schema, env: Env)
    ensures Denote(Filter(input, e, schema), env)
         == var b :- Denote(input, env); FilterMeaning(env.host, e, schema, b)
  {
    hide FilterMeaning;
  }

  lemma ProjectUnfolds(input: Plan, es: seq<Expr>, schema: Schema, env: Env)
    ensures Denote(Project(input, es, schema), env)
         == var b :- Denote(input, env); ProjectMeaning(env.host, es, schema, b)
  {
    hide ProjectMeaning;
  }

  lemma AggregationUnfolds(input: Plan, gs: seq<Expr>, aggs: seq<Expr>, schema: Schema, env: Env)
    ensures Denote(Aggregation(input, gs, aggs, schema), env)
         == var b :- Denote(input, env); AggregateMeaning(env.host, gs, aggs, schema, b)
  {
    hide AggregateMeaning;
  }

  /** What the nodes under a planned HAVING filter compute. */
  lemma GroupedUnfolds(env: Env, input: Plan, s: SelectQuery, e: Expr, b: Batch, fb: Batch)
    requires s.having == Some(e) && s.projections != [Star]
    requires Denote(input, env) == Ok(b) && Denote(GroupedPlan(env.host, input, s), env) == Ok(fb)
    ensures var ds := Digests(env.host, s.groupBy, AggregateProjections(s.projections), b.records, b.schema);
      && ds.Ok? && ProjectedGroups(env.host, s.groupBy, s.projections, ds.value).Ok?
      && FilterRows(env.host, RewriteHaving(e, s.projections),
          ProjectedGroups(env.host, s.groupBy, s.projections, ds.value).value,
                    OutputOf(env.host, s.groupBy, s.projections)) == Ok(fb.records)
  {
    hide Denote, AggregateProjections, RewriteHaving, Digests, GroupRows, ProjectRows, FilterRows, AggregateSchema,
         ProjectSchema, ValidBatch, AllFit;
    var h := env.host;
    var aggs := AggregateProjections(s.projections);
    var inner := AggregateSchema(h, s.groupBy, aggs);
    var grouped := Aggregation(input, s.groupBy, aggs, inner);
    var projected := Project(grouped, s.projections, OutputOf(h, s.groupBy, s.projections));
    assert GroupedPlan(h, input, s) == Filter(projected, RewriteHaving(e, s.projections),
        OutputOf(h, s.groupBy, s.projections));
    FilterUnfolds(projected, RewriteHaving(e, s.projections), OutputOf(h, s.groupBy, s.projections), env);
    ProjectUnfolds(grouped, s.projections, OutputOf(h, s.groupBy, s.projections), env);
    AggregationUnfolds(input, s.groupBy, aggs, inner, env);
  }

  lemma ItemsAreNotStar(projections: seq<Expr>)
    requires forall k :: 0 <= k < |projections| ==> IsItem(projections[k])
    ensures projections != [Star]
  {
    if |projections| == 1 {
      assert IsItem(projections[0]);
    }
  }

  /** The planned pipeline: a HAVING query returns exactly the projected rows of the groups on which
      the predicate, as written, is true. */
  lemma PlannedHaving(env: Env, input: Plan, s: SelectQuery, e: Expr, b: Batch, fb: Batch)
    returns (ds: seq<Digest>, out: seq<Record>)
    requires s.having == Some(e) && Claimed(env.host, s.groupBy, s.projections, e)
    requires Denote(input, env) == Ok(b) && Denote(GroupedPlan(env.host, input, s), env) == Ok(fb)
    ensures Digests(env.host, s.groupBy, AggregateProjections(s.projections), b.records, b.schema) == Ok(ds)
    ensures ProjectedGroups(env.host, s.groupBy, s.projections, ds) == Ok(out)
    ensures |b.records| == |ds| && |out| == |OrderedKeys(env.host, ds)|
    ensures forall i :: 0 <= i < |out| ==> GroupAt(env.host, b.records, ds, i) != []
    ensures fb.records == Select(out, seq(|out|, i requires 0 <= i < |out| =>
      GroupTruth(env.host, e, GroupAt(env.host, b.records, ds, i), b.schema) == Ok(true)))
  {
    hide Denote, GroupedPlan, Digests, ProjectedGroups, OrderedKeys, GroupAt, GroupTruth, FilterRows, Select,
         RewriteHaving, OutputOf, AggregateProjections;
    ItemsAreNotStar(s.projections);
    GroupedUnfolds(env, input, s, e, b, fb);
    ds := Digests(env.host, s.groupBy, AggregateProjections(s.projections), b.records, b.schema).value;
    out := ProjectedGroups(env.host, s.groupBy, s.projections, ds).value;
    HavingKeepsGroups(env.host, s.groupBy, s.projections, e, b.records, b.schema, ds, out);
  }
}
