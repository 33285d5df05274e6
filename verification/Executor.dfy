/** The local executor (crates/rspark-exec/src/executor.rs:138-311): evaluating a plan by overwriting
    one batch slot computes the plan's compositional meaning. */
module Executor {
  import opened Results
  import opened Values
  import opened Records
  import opened Expressions
  import opened Plans
  import opened Operators
  import opened Sorting
  import opened Aggregating

  /** The platform, and what the registered data sources return for (path, source kind, schema). */
  datatype Env = Env(host: Host, scan: (string, string, Schema) -> Result<Batch>)

  // ----- the meaning of a plan -----

  function ScanMeaning(env: Env, path: string, source: string, schema: Schema): Result<Batch> {
    var b :- env.scan(path, source, schema);
    Ok(if b.records == [] then Batch(schema, []) else b)
  }

  function ProjectMeaning(h: Host, es: seq<Expr>, schema: Schema, b: Batch): Result<Batch> {
    if es == [Star] then FromRecords(schema, b.records)
    else
      var rows :- ProjectRows(h, es, b.records, b.schema, schema);
      FromRecords(schema, rows)
  }

  function FilterMeaning(h: Host, e: Expr, schema: Schema, b: Batch): Result<Batch> {
    var rows :- FilterRows(h, e, b.records, b.schema);
    FromRecords(schema, rows)
  }

  ghost function AggregateMeaning(h: Host, groups: seq<Expr>, aggs: seq<Expr>, schema: Schema,
                                  b: Batch): Result<Batch> {
    var rows :- AggregatedRows(h, groups, aggs, b.records, b.schema);
    FromRecords(schema, rows)
  }

  /** The intermediate batch is validated against the input schema, then against the node's. */
  function SortMeaning(h: Host, order: seq<SortExpr>, schema: Schema, b: Batch): Result<Batch> {
    var rows :- SortedRows(h, order, b.records, b.schema);
    var sorted :- FromRecords(b.schema, rows);
    FromRecords(schema, sorted.records)
  }

  function LimitMeaning(count: nat, schema: Schema, b: Batch): Result<Batch> {
    var limited :- FromRecords(b.schema, FirstRows(b.records, count));
    FromRecords(schema, limited.records)
  }

  function DistinctMeaning(h: Host, schema: Schema, b: Batch): Result<Batch> {
    FromRecords(schema, DistinctRows(h, b.records))
  }

  function JoinMeaning(on: JoinPairs, how: JoinType, schema: Schema, l: Batch, r: Batch): Result<Batch> {
    var joined :- JoinedBatch(l, r, on, how);
    FromRecords(schema, joined.records)
  }

  /** The denotation of a plan, by structural recursion. */
  ghost function Denote(p: Plan, env: Env): Result<Batch>
    decreases p, 1
  {
    match p
    case Scan(_, path, source, schema) => ScanMeaning(env, path, source, schema)
    case Empty => Ok(Batch([], []))
    case Project(input, es, schema) => var b :- Denote(input, env); ProjectMeaning(env.host, es, schema, b)
    case Filter(input, e, schema) => var b :- Denote(input, env); FilterMeaning(env.host, e, schema, b)
    case Aggregation(input, gs, aggs, schema) =>
      var b :- Denote(input, env); AggregateMeaning(env.host, gs, aggs, schema, b)
    case Sort(input, order, schema) => var b :- Denote(input, env); SortMeaning(env.host, order, schema, b)
    case Limit(input, count, schema) => var b :- Denote(input, env); LimitMeaning(count, schema, b)
    case Distinct(input, schema) => var b :- Denote(input, env); DistinctMeaning(env.host, schema, b)
    case Join(left, right, on, how, schema) =>
      var l :- Denote(left, env);
      if l.schema != OutputSchema(left) then Err(MismatchedExtend)
      else
        var r :- Denote(right, env);
        JoinMeaning(on, how, schema, l, r)
    case Union(inputs, schema) => DenoteUnion(inputs, env, Batch(schema, []))
  }

  /** The inputs' rows appended to `acc`, in order. */
  ghost function DenoteUnion(inputs: seq<Plan>, env: Env, acc: Batch): Result<Batch>
    decreases inputs, 0
  {
    if inputs == [] then Ok(acc)
    else
      var b :- Denote(inputs[0], env);
      var more :- Extended(acc, b);
      DenoteUnion(inputs[1..], env, more)
  }

  // ----- the executor -----

  /** The plan's children, as `materialize_input` looks at them: only the first is used. */
  function FirstChild(p: Plan): Option<Plan> {
    match p
    case Project(input, _, _) => Some(input)
    case Filter(input, _, _) => Some(input)
    case Aggregation(input, _, _, _) => Some(input)
    case Sort(input, _, _) => Some(input)
    case Limit(input, _, _) => Some(input)
    case Distinct(input, _) => Some(input)
    case Join(left, _, _, _, _) => Some(left)
    case Union(inputs, _) => if inputs == [] then None else Some(inputs[0])
    case Scan(_, _, _, _) => None
    case Empty => None
  }

  /** What `materialize_input` seeds the slot with. */
  ghost function SeedOf(p: Plan, env: Env): Result<Batch> {
    match p
    case Scan(_, path, source, schema) => env.scan(path, source, schema)
    case Empty => Ok(Batch([], []))
    case _ =>
      match FirstChild(p)
      case Some(child) => Denote(child, env)
      case None => Ok(Batch(OutputSchema(p), []))
  }

  /** `LocalExecutor::execute` returns the denotation of every plan, errors included. */
  method Execute(p: Plan, env: Env) returns (r: Result<Batch>)
    ensures r == Denote(p, env)
    decreases p, 3
  {
    var seed := MaterializeInput(p, env);
    if seed.Err? {
      SeedFailureIsFailure(p, env);
      return Err(seed.error);
    }
    var slot := new BatchSlot(seed.value);
    var fault := ApplyTree(p, slot, env);
    if fault.Some? {
      return Err(fault.value);
    }
    return Ok(slot.batch);
  }

  lemma SeedFailureIsFailure(p: Plan, env: Env)
    requires SeedOf(p, env).Err?
    ensures Denote(p, env) == Err(SeedOf(p, env).error)
  {
  }

  method MaterializeInput(p: Plan, env: Env) returns (r: Result<Batch>)
    ensures r == SeedOf(p, env)
    decreases p, 2
  {
    match p
    case Scan(_, path, source, schema) => r := env.scan(path, source, schema);
    case Empty => r := Ok(Batch([], []));
    case _ =>
      var child := FirstChild(p);
      if child.Some? {
        assert child.value < p;
        r := Execute(child.value, env);
      } else {
        r := Ok(Batch(OutputSchema(p), []));
      }
  }

  /** Stores an outcome in the slot, or reports its error. */
  method Store(slot: BatchSlot, r: Result<Batch>) returns (fault: Option<Error>)
    modifies slot
    ensures r.Ok? ==> fault.None? && slot.batch == r.value
    ensures r.Err? ==> fault == Some(r.error)
  {
    if r.Err? {
      return Some(r.error);
    }
    slot.batch := r.value;
    fault := None;
  }

  /** `apply_tree`: overwrites the slot with the node's output. */
  method ApplyTree(p: Plan, slot: BatchSlot, env: Env) returns (fault: Option<Error>)
    requires SeedOf(p, env) == Ok(slot.batch)
    modifies slot
    ensures fault.None? ==> Denote(p, env) == Ok(slot.batch)
    ensures fault.Some? ==> Denote(p, env) == Err(fault.value)
    decreases p, 1
  {
    var h := env.host;
    match p
    case Scan(_, _, _, schema) =>
      if slot.batch.records == [] {
        slot.batch := Batch(schema, []);
      }
      fault := None;
    case Empty =>
      if slot.batch.records == [] {
        slot.batch := Batch([], []);
      }
      fault := None;
    case Project(_, es, schema) =>
      if es == [Star] {
        fault := Store(slot, FromRecords(schema, slot.batch.records));
      } else {
        var rows := ProjectRecords(h, es, slot.batch.records, slot.batch.schema, schema);
        if rows.Err? {
          return Some(rows.error);
        }
        fault := Store(slot, FromRecords(schema, rows.value));
      }
    case Filter(_, e, schema) =>
      var rows := FilterRecords(h, e, slot.batch.records, slot.batch.schema);
      if rows.Err? {
        return Some(rows.error);
      }
      fault := Store(slot, FromRecords(schema, rows.value));
    case Aggregation(_, gs, aggs, schema) =>
      var rows := AggregateRecords(h, gs, aggs, slot.batch.records, slot.batch.schema);
      if rows.Err? {
        return Some(rows.error);
      }
      fault := Store(slot, FromRecords(schema, rows.value));
    case Sort(_, order, schema) =>
      var rows := SortBatch(h, slot.batch.records, slot.batch.schema, order);
      if rows.Err? {
        return Some(rows.error);
      }
      fault := Store(slot, FromRecords(slot.batch.schema, rows.value));
      if fault.None? {
        fault := Store(slot, FromRecords(schema, slot.batch.records));
      }
    case Limit(_, count, schema) =>
      fault := Store(slot, FromRecords(slot.batch.schema, FirstRows(slot.batch.records, count)));
      if fault.None? {
        fault := Store(slot, FromRecords(schema, slot.batch.records));
      }
    case Distinct(_, schema) =>
      var rows := DistinctRecords(h, slot.batch.records);
      fault := Store(slot, FromRecords(schema, rows));
    case Join(left, right, on, how, schema) =>
      fault := ApplyJoin(p, slot, env);
    case Union(inputs, schema) =>
      fault := ApplyUnion(p, slot, env);
  }

  /** The Join arm: the slot's rows move to a fresh left batch, the right side is executed. */
  method ApplyJoin(p: Plan, slot: BatchSlot, env: Env) returns (fault: Option<Error>)
    requires p.Join? && SeedOf(p, env) == Ok(slot.batch)
    modifies slot
    ensures fault.None? ==> Denote(p, env) == Ok(slot.batch)
    ensures fault.Some? ==> Denote(p, env) == Err(fault.value)
    decreases p, 0
  {
    var leftBatch := new BatchSlot(Batch(OutputSchema(p.left), []));
    fault := leftBatch.Extend(slot.batch);
    if fault.Some? {
      return;
    }
    assert leftBatch.batch == slot.batch by {
      assert [] + slot.batch.records == slot.batch.records;
    }
    slot.batch := Batch([], []);
    var right := Execute(p.right, env);
    if right.Err? {
      return Some(right.error);
    }
    var joined := JoinBatches(leftBatch.batch, right.value, p.on, p.how);
    if joined.Err? {
      return Some(joined.error);
    }
    fault := Store(slot, FromRecords(p.joinSchema, joined.value.records));
  }

  /** The Union arm: every input is executed, the first one for the second time. */
  method ApplyUnion(p: Plan, slot: BatchSlot, env: Env) returns (fault: Option<Error>)
    requires p.Union? && SeedOf(p, env) == Ok(slot.batch)
    modifies slot
    ensures fault.None? ==> Denote(p, env) == Ok(slot.batch)
    ensures fault.Some? ==> Denote(p, env) == Err(fault.value)
    decreases p, 0
  {
    var combined := new BatchSlot(Batch(p.unionSchema, []));
    var i := 0;
    assert p.inputs[0..] == p.inputs;
    while i < |p.inputs|
      invariant 0 <= i <= |p.inputs|
      invariant Denote(p, env) == DenoteUnion(p.inputs[i..], env, combined.batch)
      invariant fresh(combined)
      modifies combined
    {
      assert p.inputs[i..][1..] == p.inputs[i + 1..];
      var b := Execute(p.inputs[i], env);
      if b.Err? {
        return Some(b.error);
      }
      fault := combined.Extend(b.value);
      if fault.Some? {
        return;
      }
      i := i + 1;
    }
    slot.batch := combined.batch;
    fault := None;
  }

  // ----- Union is concatenation -----

  ghost function Concatenated(inputs: seq<Plan>, env: Env): seq<Record> {
    if inputs == [] then []
    else
      (match Denote(inputs[0], env) case Ok(b) => b.records case Err(_) => [])
      + Concatenated(inputs[1..], env)
  }

  /** A union succeeds exactly when every input does with the union's own schema; its rows are then
      the inputs' rows one after the other. */
  lemma {:induction false} UnionConcatenates(inputs: seq<Plan>, env: Env, acc: Batch)
    ensures DenoteUnion(inputs, env, acc).Ok? <==>
      forall i :: 0 <= i < |inputs| ==> Denote(inputs[i], env).Ok? && Denote(inputs[i], env).value.schema == acc.schema
    ensures DenoteUnion(inputs, env, acc).Ok? ==>
      DenoteUnion(inputs, env, acc) == Ok(Batch(acc.schema, acc.records + Concatenated(inputs, env)))
  {
    hide Denote, ValidBatch;
    if inputs == [] {
      assert acc.records + [] == acc.records;
    } else {
      var first, rest := Denote(inputs[0], env), inputs[1..];
      assert forall i :: 0 <= i < |rest| ==> rest[i] == inputs[i + 1];
      if first.Ok? && first.value.schema == acc.schema {
        var more := Batch(acc.schema, acc.records + first.value.records);
        UnionConcatenates(rest, env, more);
        assert DenoteUnion(inputs, env, acc) == DenoteUnion(rest, env, more);
        assert more.records + Concatenated(rest, env) == acc.records + Concatenated(inputs, env);
        forall i | 0 <= i < |inputs| && DenoteUnion(inputs, env, acc).Ok?
          ensures Denote(inputs[i], env).Ok? && Denote(inputs[i], env).value.schema == acc.schema
        {
          assert i > 0 ==> inputs[i] == rest[i - 1];
        }
      }
    }
  }
}
