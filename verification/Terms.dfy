/** Expressions by their parts: columns, aggregates, matching, output names and inferred types
    (crates/rspark-core/src/expr.rs:60-258, crates/rspark-sql/src/plan.rs:170-235). */
module Terms {
  import opened Results
  import opened Values
  import opened Records
  import opened Expressions
  import opened Plans
  import opened Operators
  import opened Aggregating
  import opened Planner
  import opened Having

  // ----- parts -----

  /** The expression and all its operands, at any depth. */
  ghost function Parts(e: Expr): set<Expr> {
    {e} + match e
          case Binary(_, l, r) => Parts(l) + Parts(r)
          case Not(i) => Parts(i)
          case IsNull(i) => Parts(i)
          case IsNotNull(i) => Parts(i)
          case If(c, t, f) => Parts(c) + Parts(t) + Parts(f)
          case Aggregate(_, a, _) => Parts(a)
          case Aliased(i, _) => Parts(i)
          case _ => {}
  }

  /** The parts that are not below an IF. */
  ghost function OuterParts(e: Expr): set<Expr> {
    if e.If? then {e}
    else {e} + match e
               case Binary(_, l, r) => OuterParts(l) + OuterParts(r)
               case Not(i) => OuterParts(i)
               case IsNull(i) => OuterParts(i)
               case IsNotNull(i) => OuterParts(i)
               case Aggregate(_, a, _) => OuterParts(a)
               case Aliased(i, _) => OuterParts(i)
               case _ => {}
  }

  ghost predicate HoldsAggregate(parts: set<Expr>) {
    exists p :: p in parts && p.Aggregate?
  }

  /** The column leaves are the columns among the parts. */
  lemma {:induction false} LeavesAreParts(e: Expr, c: string)
    ensures c in ColumnLeaves(e) <==> Column(c) in Parts(e)
  {
    match e
    case Binary(_, l, r) =>
      LeavesAreParts(l, c);
      LeavesAreParts(r, c);
    case Not(i) => LeavesAreParts(i, c);
    case IsNull(i) => LeavesAreParts(i, c);
    case IsNotNull(i) => LeavesAreParts(i, c);
    case If(x, t, f) =>
      LeavesAreParts(x, c);
      LeavesAreParts(t, c);
      LeavesAreParts(f, c);
    case Aggregate(_, a, _) => LeavesAreParts(a, c);
    case Aliased(i, _) => LeavesAreParts(i, c);
    case _ =>
  }

  lemma OwnPart(e: Expr)
    ensures e in Parts(e) && e in OuterParts(e)
  {
  }

  /** The planner's test finds every aggregate; the executor's own test misses those below an IF. */
  lemma {:induction false} AggregatesAreParts(e: Expr)
    ensures ContainsAggregate(e) <==> HoldsAggregate(Parts(e))
    ensures HasAggregate(e) <==> HoldsAggregate(OuterParts(e))
  {
    OwnPart(e);
    match e
    case Binary(_, l, r) =>
      AggregatesAreParts(l);
      AggregatesAreParts(r);
    case Not(i) => AggregatesAreParts(i);
    case IsNull(i) => AggregatesAreParts(i);
    case IsNotNull(i) => AggregatesAreParts(i);
    case If(c, t, f) =>
      AggregatesAreParts(c);
      AggregatesAreParts(t);
      AggregatesAreParts(f);
    case Aliased(i, _) => AggregatesAreParts(i);
    case _ =>
  }

  // ----- the matcher of HAVING -----

  /** The expression without the aliases that the matcher looks through. */
  function Bare(e: Expr): Expr {
    match e
    case Aliased(i, _) => Bare(i)
    case Binary(op, l, r) => Binary(op, Bare(l), Bare(r))
    case Aggregate(func, a, distinct) => Aggregate(func, Bare(a), distinct)
    case _ => e
  }

  /** Made of columns, literals other than NaN, binary operators and aggregates. */
  predicate IsMatchable(e: Expr) {
    match e
    case Column(_) => true
    case Lit(l) => l != FloatLit(NaN)
    case Binary(_, l, r) => IsMatchable(l) && IsMatchable(r)
    case Aggregate(_, a, _) => IsMatchable(a)
    case Aliased(i, _) => IsMatchable(i)
    case _ => false
  }

  /** Two expressions match if and only if they are equal up to aliases and of a kind that the matcher knows. */
  lemma {:induction false} MatchesExactly(a: Expr, b: Expr)
    ensures StrictlyMatches(a, b) <==> Bare(a) == Bare(b) && IsMatchable(a)
    decreases a, b
  {
    if a.Aliased? {
      MatchesExactly(a.expr, b);
    } else if b.Aliased? {
      MatchesExactly(a, b.expr);
    } else if a.Binary? && b.Binary? {
      MatchesExactly(a.left, b.left);
      MatchesExactly(a.right, b.right);
    } else if a.Aggregate? && b.Aggregate? {
      MatchesExactly(a.arg, b.arg);
    }
  }

  // ----- output names -----

  /** An alias names its column, a column keeps its name, and an aggregate is named by its function and argument. */
  lemma NamesAre(h: Host, e: Expr, name: string, distinct: bool)
    ensures DisplayName(h, Aliased(e, name)) == name && DisplayName(h, Column(name)) == name
    ensures DisplayName(h, Aggregate(Count, Column(name), distinct)) == "count(" + name + ")"
    ensures DisplayName(h, Aggregate(Sum, Column(name), distinct)) == "sum(" + name + ")"
    ensures DisplayName(h, Aggregate(Avg, Column(name), distinct)) == "avg(" + name + ")"
    ensures DisplayName(h, Aggregate(Min, Column(name), distinct)) == "min(" + name + ")"
    ensures DisplayName(h, Aggregate(Max, Column(name), distinct)) == "max(" + name + ")"
  {
  }

  /** Operators are named by their operands around the operator's name, or by a prefix or suffix in capitals. */
  lemma OperatorNamesAre(h: Host, a: string, b: string)
    ensures DisplayName(h, Binary(AddOp, Column(a), Column(b))) == a + " Add " + b
    ensures DisplayName(h, Binary(LtEqOp, Column(a), Column(b))) == a + " LtEq " + b
    ensures DisplayName(h, Not(Column(a))) == "NOT " + a
    ensures DisplayName(h, IsNull(Column(a))) == a + " IS NULL"
    ensures DisplayName(h, IsNotNull(Column(a))) == a + " IS NOT NULL"
    ensures DisplayName(h, If(Column(a), Column(a), Column(b))) == "if" && DisplayName(h, Star) == "*"
    ensures DisplayName(h, Lit(NullLit)) == "NULL" && DisplayName(h, Lit(StrLit(a))) == a
  {
  }

  /** Aggregates of columns have one name if and only if function and column agree: DISTINCT does not show. */
  lemma AggregateNamesDiffer(h: Host, f: AggregateFn, a: string, d: bool, g: AggregateFn, b: string, e: bool)
    ensures DisplayName(h, Aggregate(f, Column(a), d)) == DisplayName(h, Aggregate(g, Column(b), e))
       <==> f == g && a == b
  {
    var x, y := DisplayName(h, Aggregate(f, Column(a), d)), DisplayName(h, Aggregate(g, Column(b), e));
    var n := |AggregateName(f)| + 1;
    assert DisplayName(h, Column(a)) == a && DisplayName(h, Column(b)) == b;
    assert x == AggregateName(f) + "(" + a + ")" && y == AggregateName(g) + "(" + b + ")";
    if f == g {
      assert x[n..|x| - 1] == a && y[n..|y| - 1] == b;
    } else {
      assert x[0] == AggregateName(f)[0] && x[1] == AggregateName(f)[1];
      assert y[0] == AggregateName(g)[0] && y[1] == AggregateName(g)[1];
    }
  }

  /** A SELECT list without `*` gives one column per item, under the item's name; `*` alone gives the input's. */
  lemma SelectColumns(h: Host, es: seq<Expr>, input: Schema)
    ensures ProjectSchema(h, [Star], input) == input
    ensures NoStar(es) ==> |ProjectSchema(h, es, input)| == |es|
    ensures NoStar(es) ==> forall k :: 0 <= k < |es| ==>
      && (es[k].Aliased? ==> ProjectSchema(h, es, input)[k].name == es[k].alias)
      && (es[k].Column? ==> ProjectSchema(h, es, input)[k].name == es[k].name)
      && ProjectSchema(h, es, input)[k].nullable
  {
    assert [Star][1..] == [];
    assert input + [] == input;
    if NoStar(es) && es != [] {
      ProjectSchemaAt(h, es, input, 0);
    }
    forall k | 0 <= k < |es| && NoStar(es)
      ensures k < |ProjectSchema(h, es, input)| && ProjectSchema(h, es, input)[k] == OutputField(h, es[k])
    {
      ProjectSchemaAt(h, es, input, k);
    }
  }

  // ----- inferred types -----

  function TypeOf(v: Value): DataType {
    match v
    case Null => NullType
    case Boolean(_) => BooleanType
    case Int32(_) => Int32Type
    case Int64(_) => Int64Type
    case Float32(_) => Float32Type
    case Float64(_) => Float64Type
    case String(_) => StringType
  }

  /** The type names in error messages tell the types apart. */
  lemma TypeNamesDiffer(a: Value, b: Value)
    ensures DataTypeName(a) == DataTypeName(b) <==> TypeOf(a) == TypeOf(b)
  {
  }

  /** Literals, comparisons, logic, division, null tests, and conditionals and aliases over these. */
  predicate InfersSoundly(e: Expr) {
    match e
    case Lit(_) => true
    case Binary(op, _, _) => op !in {AddOp, SubOp, MulOp, ModOp}
    case Not(_) => true
    case IsNull(_) => true
    case IsNotNull(_) => true
    case If(_, t, f) => InfersSoundly(t) && InfersSoundly(f) && InferDataType(t) == InferDataType(f)
    case Aliased(i, _) => InfersSoundly(i)
    case _ => false
  }

  lemma ArithmeticResult(h: Host, op: BinaryOp, l: Value, r: Value, v: Value)
    requires NullStrict(h, op, l, r) == Ok(v) && !v.Null? && IsArithmetic(op)
    ensures TypeOf(v)
         == if op == DivOp then Float64Type
            else if op == ModOp || (CastToI64(h, l).Some? && CastToI64(h, r).Some?) then Int64Type
            else Float64Type
  {
    hide CastToI64, CastToF64, WrapI64, TruncatedRem;
  }

  lemma TruthResult(h: Host, op: BinaryOp, l: Value, r: Value, v: Value)
    requires NullStrict(h, op, l, r) == Ok(v) && !v.Null? && !IsArithmetic(op)
    ensures TypeOf(v) == BooleanType
  {
    hide TryCmp, ValueEq;
  }

  lemma BinaryType(h: Host, op: BinaryOp, l: Value, r: Value, v: Value)
    requires NullStrict(h, op, l, r) == Ok(v) && !v.Null?
    ensures op in {AddOp, SubOp, MulOp} ==>
      TypeOf(v) == if CastToI64(h, l).Some? && CastToI64(h, r).Some? then Int64Type else Float64Type
    ensures op == ModOp ==> TypeOf(v) == Int64Type
    ensures op == DivOp ==> TypeOf(v) == Float64Type
    ensures !IsArithmetic(op) ==> TypeOf(v) == BooleanType
  {
    hide NullStrict, CastToI64, TypeOf;
    if IsArithmetic(op) {
      ArithmeticResult(h, op, l, r, v);
    } else {
      TruthResult(h, op, l, r, v);
    }
  }

  /** The inferred type is the type of every value such an expression takes, nulls apart. */
  lemma {:induction false} InferredTypeHolds(h: Host, e: Expr, row: Record, schema: Schema, v: Value)
    requires InfersSoundly(e) && Eval(h, e, row, schema) == Ok(v) && !v.Null?
    ensures TypeOf(v) == InferDataType(e)
  {
    hide NullStrict;
    match e
    case Binary(op, l, r) =>
      BinaryType(h, op, Eval(h, l, row, schema).value, Eval(h, r, row, schema).value, v);
    case If(c, t, f) =>
      if Eval(h, c, row, schema).value == Boolean(true) {
        InferredTypeHolds(h, t, row, schema, v);
      } else {
        InferredTypeHolds(h, f, row, schema, v);
      }
    case Aliased(i, _) => InferredTypeHolds(h, i, row, schema, v);
    case _ =>
  }

  /** Arithmetic is declared Float64: right for a sum, difference or product exactly when an operand is no integer,
      always for a quotient and never for a remainder. */
  lemma ArithmeticTypeExactly(h: Host, op: BinaryOp, l: Expr, r: Expr, row: Record, schema: Schema, v: Value)
    requires IsArithmetic(op) && Eval(h, Binary(op, l, r), row, schema) == Ok(v) && !v.Null?
    ensures InferDataType(Binary(op, l, r)) == Float64Type
    ensures Eval(h, l, row, schema).Ok? && Eval(h, r, row, schema).Ok?
    ensures TypeOf(v) == Float64Type
       <==> op == DivOp
            || (op != ModOp && !(CastToI64(h, Eval(h, l, row, schema).value).Some?
                                 && CastToI64(h, Eval(h, r, row, schema).value).Some?))
  {
    hide NullStrict, CastToI64;
    BinaryType(h, op, Eval(h, l, row, schema).value, Eval(h, r, row, schema).value, v);
  }

  /** COUNT is an Int64 column and SUM and AVG are Float64 ones, as declared; MIN, MAX and plain columns are declared
      String whatever they hold. */
  lemma AggregateTypes(h: Host, func: AggregateFn, arg: Expr, distinct: bool, rows: seq<Record>, schema: Schema,
                       c: string)
    ensures var v := AggregateOver(h, func, arg, rows, schema);
      func in {Count, Sum, Avg} && !v.Null? ==> TypeOf(v) == InferDataType(Aggregate(func, arg, distinct))
    ensures func in {Min, Max} ==> InferDataType(Aggregate(func, arg, distinct)) == StringType
    ensures InferDataType(Column(c)) == StringType
  {
    FoldKeepsFunction(h, func, ArgColumn(h, arg, rows, schema));
  }

  lemma {:induction false} FoldKeepsFunction(h: Host, func: AggregateFn, vs: seq<Value>)
    ensures var acc := Fold(h, func, vs);
      match func
      case Count => acc.CountAcc?
      case Sum => acc.SumAcc?
      case Avg => acc.AvgAcc?
      case Min => acc.MinAcc?
      case Max => acc.MaxAcc?
  {
    hide CastToF64, TryCmp;
    if vs != [] {
      FoldKeepsFunction(h, func, vs[..|vs| - 1]);
    }
  }
}
