/** Logical plans and the schema builders (crates/rspark-sql/src/plan.rs). */
module Plans {
  import opened Results
  import opened Values
  import opened Records
  import opened Expressions

  datatype JoinType = Inner | LeftOuter | RightOuter | FullOuter

  datatype SortExpr = SortExpr(expr: Expr, ascending: bool)

  type JoinPairs = seq<(string, string)>

  datatype Plan =
    | Scan(table: string, path: string, source: string, scanSchema: Schema)
    | Project(input: Plan, expressions: seq<Expr>, projectSchema: Schema)
    | Filter(input: Plan, predicate_: Expr, filterSchema: Schema)
    | Aggregation(input: Plan, groupExprs: seq<Expr>, aggregateExprs: seq<Expr>, aggregateSchema: Schema)
    | Sort(input: Plan, order: seq<SortExpr>, sortSchema: Schema)
    | Limit(input: Plan, count: nat, limitSchema: Schema)
    | Join(left: Plan, right: Plan, on: JoinPairs, how: JoinType, joinSchema: Schema)
    | Union(inputs: seq<Plan>, unionSchema: Schema)
    | Distinct(input: Plan, distinctSchema: Schema)
    | Empty

  function OutputSchema(p: Plan): Schema {
    match p
    case Scan(_, _, _, s) => s
    case Project(_, _, s) => s
    case Filter(_, _, s) => s
    case Aggregation(_, _, _, s) => s
    case Sort(_, _, s) => s
    case Limit(_, _, s) => s
    case Join(_, _, _, _, s) => s
    case Union(_, s) => s
    case Distinct(_, s) => s
    case Empty => []
  }

  function InferDataType(e: Expr): DataType {
    match e
    case Lit(NullLit) => NullType
    case Lit(BoolLit(_)) => BooleanType
    case Lit(IntLit(_)) => Int64Type
    case Lit(FloatLit(_)) => Float64Type
    case Lit(StrLit(_)) => StringType
    case Aggregate(f, _, _) => if f.Count? then Int64Type else if f.Sum? || f.Avg? then Float64Type else StringType
    case Binary(op, _, _) => if op in {AddOp, SubOp, MulOp, DivOp, ModOp} then Float64Type else BooleanType
    case Not(_) => BooleanType
    case IsNull(_) => BooleanType
    case IsNotNull(_) => BooleanType
    case If(_, t, f) => if InferDataType(t) == InferDataType(f) then InferDataType(t) else StringType
    case Column(_) => StringType
    case Star => StringType
    case Aliased(i, _) => InferDataType(i)
  }

  function OutputField(h: Host, e: Expr): Field {
    NewField(DisplayName(h, e), InferDataType(e))
  }

  function OutputFields(h: Host, es: seq<Expr>): (fields: Schema)
    ensures |fields| == |es|
    ensures forall i :: 0 <= i < |es| ==> fields[i] == OutputField(h, es[i])
  {
    seq(|es|, i requires 0 <= i < |es| => OutputField(h, es[i]))
  }

  /** One expression's share of a projection schema: `*` expands to the input fields. */
  function ProjectedFields(h: Host, e: Expr, input: Schema): Schema {
    if e.Star? then input else [OutputField(h, e)]
  }

  function ProjectSchema(h: Host, es: seq<Expr>, input: Schema): Schema {
    if es == [] then [] else ProjectedFields(h, es[0], input) + ProjectSchema(h, es[1..], input)
  }

  /** `build_project_schema`: pushes the fields of each expression in turn. */
  method BuildProjectSchema(h: Host, es: seq<Expr>, input: Schema) returns (fields: Schema)
    ensures fields == ProjectSchema(h, es, input)
  {
    fields := [];
    for i := 0 to |es|
      invariant fields + ProjectSchema(h, es[i..], input) == ProjectSchema(h, es, input)
    {
      assert es[i..][1..] == es[i + 1..];
      var next := ProjectedFields(h, es[i], input);
      assert fields + (next + ProjectSchema(h, es[i + 1..], input))
          == (fields + next) + ProjectSchema(h, es[i + 1..], input);
      fields := fields + next;
    }
  }

  function AggregateSchema(h: Host, groups: seq<Expr>, aggs: seq<Expr>): Schema {
    OutputFields(h, groups) + OutputFields(h, aggs)
  }

  /** The right-hand fields a join keeps: those whose name is no left-hand join column. */
  predicate IsJoinColumn(pairs: JoinPairs, name: string) {
    exists k :: 0 <= k < |pairs| && pairs[k].0 == name
  }

  function KeptFields(right: Schema, pairs: JoinPairs): Schema {
    if right == [] then []
    else (if IsJoinColumn(pairs, right[0].name) then [] else [right[0]]) + KeptFields(right[1..], pairs)
  }

  function JoinSchema(left: Schema, right: Schema, pairs: JoinPairs): Schema {
    left + KeptFields(right, pairs)
  }

  /** `build_join_schema` */
  method BuildJoinSchema(left: Schema, right: Schema, pairs: JoinPairs) returns (fields: Schema)
    ensures fields == JoinSchema(left, right, pairs)
  {
    fields := left;
    for i := 0 to |right|
      invariant fields + KeptFields(right[i..], pairs) == JoinSchema(left, right, pairs)
    {
      assert right[i..][1..] == right[i + 1..];
      var next := if IsJoinColumn(pairs, right[i].name) then [] else [right[i]];
      assert fields + (next + KeptFields(right[i + 1..], pairs))
          == (fields + next) + KeptFields(right[i + 1..], pairs);
      fields := fields + next;
    }
  }
}
