/** Scalar expressions and their evaluation (crates/rspark-core/src/expr.rs). */
module Expressions {
  import opened Results
  import opened Subsequences
  import opened Values
  import opened Records
  import Like
  import opened Orders

  datatype Literal = NullLit | BoolLit(b: bool) | IntLit(i: int) | FloatLit(f: Float) | StrLit(s: string)

  datatype BinaryOp =
    | EqOp | NotEqOp | LtOp | LtEqOp | GtOp | GtEqOp | AndOp | OrOp
    | AddOp | SubOp | MulOp | DivOp | ModOp | LikeOp

  datatype AggregateFn = Count | Sum | Avg | Min | Max

  datatype Expr =
    | Column(name: string)
    | Lit(lit: Literal)
    | Binary(op: BinaryOp, left: Expr, right: Expr)
    | Not(inner: Expr)
    | IsNull(inner: Expr)
    | IsNotNull(inner: Expr)
    | If(cond: Expr, thenExpr: Expr, elseExpr: Expr)
    | Aggregate(func: AggregateFn, arg: Expr, distinct: bool)
    | Aliased(expr: Expr, alias: string)
    | Star

  function LiteralValue(l: Literal): Value {
    match l
    case NullLit => Null
    case BoolLit(b) => Boolean(b)
    case IntLit(i) => Int64(i)
    case FloatLit(f) => Float64(f)
    case StrLit(s) => String(s)
  }

  function OpName(op: BinaryOp): string {
    match op
    case EqOp => "Eq" case NotEqOp => "NotEq" case LtOp => "Lt" case LtEqOp => "LtEq"
    case GtOp => "Gt" case GtEqOp => "GtEq" case AndOp => "And" case OrOp => "Or"
    case AddOp => "Add" case SubOp => "Sub" case MulOp => "Mul" case DivOp => "Div"
    case ModOp => "Mod" case LikeOp => "Like"
  }

  function AggregateName(f: AggregateFn): string {
    match f
    case Count => "count" case Sum => "sum" case Avg => "avg" case Min => "min" case Max => "max"
  }

  /** Name of the output column an expression produces. */
  function DisplayName(h: Host, e: Expr): string {
    match e
    case Column(name) => name
    case Lit(NullLit) => "NULL"
    case Lit(BoolLit(b)) => BoolToString(b)
    case Lit(IntLit(i)) => IntToString(i)
    case Lit(FloatLit(f)) => h.printF64(f)
    case Lit(StrLit(s)) => s
    case Binary(op, l, r) => DisplayName(h, l) + " " + OpName(op) + " " + DisplayName(h, r)
    case Not(i) => "NOT " + DisplayName(h, i)
    case IsNull(i) => DisplayName(h, i) + " IS NULL"
    case IsNotNull(i) => DisplayName(h, i) + " IS NOT NULL"
    case Aggregate(f, arg, _) => AggregateName(f) + "(" + DisplayName(h, arg) + ")"
    case If(_, _, _) => "if"
    case Aliased(_, alias) => alias
    case Star => "*"
  }

  // ----- binary operators on non-null operands -----

  function CompareWith(op: BinaryOp, o: Ordering): bool
    requires op in {LtOp, LtEqOp, GtOp, GtEqOp}
  {
    match op
    case LtOp => o.Less?
    case LtEqOp => o.Less? || o.Equal?
    case GtOp => o.Greater?
    case _ => o.Greater? || o.Equal?
  }

  function NumericOp(h: Host, op: BinaryOp, l: Value, r: Value): Result<Value>
    requires op in {AddOp, SubOp, MulOp}
  {
    match (CastToI64(h, l), CastToI64(h, r))
    case (Some(a), Some(b)) =>
      Ok(Int64(WrapI64(if op.AddOp? then a + b else if op.SubOp? then a - b else a * b)))
    case _ =>
      match (CastToF64(h, l), CastToF64(h, r))
      case (Some(a), Some(b)) =>
        Ok(Float64(if op.AddOp? then h.add(a, b) else if op.SubOp? then h.sub(a, b) else h.mul(a, b)))
      case _ => Err(TypeError("cannot apply arithmetic", [DataTypeName(l), DataTypeName(r)]))
  }

  function NumericDiv(h: Host, l: Value, r: Value): Result<Value> {
    match (CastToF64(h, l), CastToF64(h, r))
    case (Some(a), Some(b)) => Ok(if b == Num(0.0) then Null else Float64(h.div(a, b)))
    case _ => Err(TypeError("cannot divide", [DataTypeName(l), DataTypeName(r)]))
  }

  function NumericMod(h: Host, l: Value, r: Value): Result<Value> {
    match (CastToI64(h, l), CastToI64(h, r))
    case (Some(a), Some(b)) => Ok(if b == 0 then Null else Int64(TruncatedRem(a, b)))
    case _ => Err(TypeError("cannot modulo", [DataTypeName(l), DataTypeName(r)]))
  }

  function Logical(op: BinaryOp, l: Value, r: Value): Result<Value>
    requires op in {AndOp, OrOp}
  {
    match (l, r)
    case (Boolean(a), Boolean(b)) => Ok(Boolean(if op.AndOp? then a && b else a || b))
    case (Null, _) => Ok(Null)
    case (_, Null) => Ok(Null)
    case _ => Err(TypeError(OpName(op), [DataTypeName(l)]))
  }

  function ApplyLike(h: Host, l: Value, r: Value): Result<Value> {
    match (l, r)
    case (String(target), String(pattern)) =>
      (match Like.RegexMatches(h.regex, "^" + Like.LikeToRegex(pattern) + "$", target)
       case Some(b) => Ok(Boolean(b))
       case None => Err(TypeError("invalid LIKE pattern", [])))
    case (Null, String(_)) => Ok(Null)
    case (_, String(_)) => Err(TypeError("LIKE target", [DataTypeName(l)]))
    case _ => Err(TypeError("LIKE pattern", [DataTypeName(r)]))
  }

  function ApplyBinary(h: Host, op: BinaryOp, l: Value, r: Value): Result<Value> {
    match op
    case AndOp => Logical(op, l, r)
    case OrOp => Logical(op, l, r)
    case EqOp => Ok(Boolean(ValueEq(l, r)))
    case NotEqOp => Ok(Boolean(!ValueEq(l, r)))
    case LtOp => var o :- TryCmp(h, l, r); Ok(Boolean(CompareWith(op, o)))
    case LtEqOp => var o :- TryCmp(h, l, r); Ok(Boolean(CompareWith(op, o)))
    case GtOp => var o :- TryCmp(h, l, r); Ok(Boolean(CompareWith(op, o)))
    case GtEqOp => var o :- TryCmp(h, l, r); Ok(Boolean(CompareWith(op, o)))
    case LikeOp => ApplyLike(h, l, r)
    case AddOp => NumericOp(h, op, l, r)
    case SubOp => NumericOp(h, op, l, r)
    case MulOp => NumericOp(h, op, l, r)
    case DivOp => NumericDiv(h, l, r)
    case ModOp => NumericMod(h, l, r)
  }

  /** Null-strictness shared by every binary operator, AND and OR included. */
  function NullStrict(h: Host, op: BinaryOp, l: Value, r: Value): Result<Value> {
    if l.Null? || r.Null? then Ok(Null) else ApplyBinary(h, op, l, r)
  }

  function Lookup(schema: Schema, name: string, record: Record): Result<Value> {
    match IndexOf(schema, name)
    case Some(i) => Ok(GetOrNull(record, i))
    case None => Err(ColumnNotFound(name))
  }

  /** `Expr::eval` against one row of a batch with the given schema. */
  function Eval(h: Host, e: Expr, record: Record, schema: Schema): Result<Value> {
    match e
    case Column(name) => Lookup(schema, name, record)
    case Lit(l) => Ok(LiteralValue(l))
    case Binary(op, l, r) =>
      var lv :- Eval(h, l, record, schema);
      var rv :- Eval(h, r, record, schema);
      NullStrict(h, op, lv, rv)
    case Not(i) =>
      var v :- Eval(h, i, record, schema);
      (match v
       case Null => Ok(Null)
       case Boolean(b) => Ok(Boolean(!b))
       case _ => Err(TypeError("NOT", [DataTypeName(v)])))
    case IsNull(i) =>
      var v :- Eval(h, i, record, schema);
      Ok(Boolean(v.Null?))
    case IsNotNull(i) =>
      var v :- Eval(h, i, record, schema);
      Ok(Boolean(!v.Null?))
    case If(c, t, f) =>
      var cv :- Eval(h, c, record, schema);
      if cv == Boolean(true) then Eval(h, t, record, schema) else Eval(h, f, record, schema)
    case Aggregate(_, _, _) => Err(ExecutionError("aggregate in row context"))
    case Aliased(inner, _) => Eval(h, inner, record, schema)
    case Star => Err(ExecutionError("* as a scalar"))
  }

  predicate ContainsAggregate(e: Expr) {
    match e
    case Aggregate(_, _, _) => true
    case Binary(_, l, r) => ContainsAggregate(l) || ContainsAggregate(r)
    case Not(i) => ContainsAggregate(i)
    case IsNull(i) => ContainsAggregate(i)
    case IsNotNull(i) => ContainsAggregate(i)
    case If(c, t, f) => ContainsAggregate(c) || ContainsAggregate(t) || ContainsAggregate(f)
    case Aliased(i, _) => ContainsAggregate(i)
    case _ => false
  }

  // ----- column dependence -----

  /** The column leaves of an expression: the reference meaning of `references`. */
  ghost function ColumnLeaves(e: Expr): set<string> {
    match e
    case Column(name) => {name}
    case Lit(_) => {}
    case Star => {}
    case Binary(_, l, r) => ColumnLeaves(l) + ColumnLeaves(r)
    case Not(i) => ColumnLeaves(i)
    case IsNull(i) => ColumnLeaves(i)
    case IsNotNull(i) => ColumnLeaves(i)
    case If(c, t, f) => ColumnLeaves(c) + ColumnLeaves(t) + ColumnLeaves(f)
    case Aggregate(_, a, _) => ColumnLeaves(a)
    case Aliased(i, _) => ColumnLeaves(i)
  }

  ghost predicate AgreeOn(columns: set<string>, schema: Schema, r1: Record, r2: Record) {
    forall c :: c in columns ==> Lookup(schema, c, r1) == Lookup(schema, c, r2)
  }

  /** Evaluation reads nothing of a row, or of its schema, but the column leaves. */
  lemma {:induction false} EvalReadsColumns(h: Host, e: Expr, s1: Schema, r1: Record, s2: Schema, r2: Record)
    requires forall c :: c in ColumnLeaves(e) ==> Lookup(s1, c, r1) == Lookup(s2, c, r2)
    ensures Eval(h, e, r1, s1) == Eval(h, e, r2, s2)
  {
    hide Lookup, NullStrict;
    match e
    case Binary(_, l, r) =>
      EvalReadsColumns(h, l, s1, r1, s2, r2);
      EvalReadsColumns(h, r, s1, r1, s2, r2);
    case Not(i) => EvalReadsColumns(h, i, s1, r1, s2, r2);
    case IsNull(i) => EvalReadsColumns(h, i, s1, r1, s2, r2);
    case IsNotNull(i) => EvalReadsColumns(h, i, s1, r1, s2, r2);
    case If(c, t, f) =>
      EvalReadsColumns(h, c, s1, r1, s2, r2);
      EvalReadsColumns(h, t, s1, r1, s2, r2);
      EvalReadsColumns(h, f, s1, r1, s2, r2);
    case Aliased(i, _) => EvalReadsColumns(h, i, s1, r1, s2, r2);
    case Column(name) => assert name in ColumnLeaves(e);
    case _ =>
  }

  /** Rows that agree on the referenced columns give the same value or the same error. */
  lemma EvalDependsOnReferences(h: Host, e: Expr, schema: Schema, r1: Record, r2: Record)
    requires AgreeOn(ColumnLeaves(e), schema, r1, r2)
    ensures Eval(h, e, r1, schema) == Eval(h, e, r2, schema)
  {
    EvalReadsColumns(h, e, schema, r1, schema, r2);
  }

  /** `collect_columns`: appends the column leaves of `e`, left to right. */
  method CollectColumns(e: Expr, soFar: seq<string>) returns (out: seq<string>)
    ensures soFar <= out
    ensures (set c | c in out) == (set c | c in soFar) + ColumnLeaves(e)
  {
    match e
    case Column(name) => out := soFar + [name];
    case Lit(_) => out := soFar;
    case Star => out := soFar;
    case Binary(_, l, r) =>
      out := CollectColumns(l, soFar);
      out := CollectColumns(r, out);
    case Not(i) => out := CollectColumns(i, soFar);
    case IsNull(i) => out := CollectColumns(i, soFar);
    case IsNotNull(i) => out := CollectColumns(i, soFar);
    case If(c, t, f) =>
      out := CollectColumns(c, soFar);
      out := CollectColumns(t, out);
      out := CollectColumns(f, out);
    case Aggregate(_, a, _) => out := CollectColumns(a, soFar);
    case Aliased(i, _) => out := CollectColumns(i, soFar);
  }

  /** `references`: the collected columns, sorted and deduplicated. */
  method References(e: Expr) returns (out: seq<string>)
    ensures Increasing(out, StringLt)
    ensures Elements(out) == ColumnLeaves(e)
  {
    var collected := CollectColumns(e, []);
    StringLtStrictTotal();
    out := ListInOrder((set c | c in collected), StringLt);
    ListingSpec((set c | c in collected), StringLt);
  }
}
