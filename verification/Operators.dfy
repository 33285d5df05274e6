/** Row-at-a-time operators (crates/rspark-exec/src/operators.rs): each loop is proved against a
    recursive meaning, and the meanings against declarative statements. */
module Operators {
  import opened Results
  import opened Values
  import opened Records
  import opened Expressions
  import opened Plans
  import opened Subsequences

  // ----- predicates -----

  /** The operator module's own test; unlike `Expr::contains_aggregate` it does not look inside IF. */
  predicate HasAggregate(e: Expr) {
    match e
    case Aggregate(_, _, _) => true
    case Aliased(i, _) => HasAggregate(i)
    case Binary(_, l, r) => HasAggregate(l) || HasAggregate(r)
    case Not(i) => HasAggregate(i)
    case IsNull(i) => HasAggregate(i)
    case IsNotNull(i) => HasAggregate(i)
    case _ => false
  }

  /** `apply_binary_op`: the reduced operator table of HAVING predicates. */
  function ApplyBinaryOp(h: Host, op: BinaryOp, l: Value, r: Value): Result<Value> {
    match op
    case AndOp => (match (l, r) case (Boolean(a), Boolean(b)) => Ok(Boolean(a && b)) case _ => Ok(Null))
    case OrOp => (match (l, r) case (Boolean(a), Boolean(b)) => Ok(Boolean(a || b)) case _ => Ok(Null))
    case LikeOp => Err(TypeError("LIKE in HAVING", []))
    case AddOp => Err(ExecutionError("unsupported binary op in predicate"))
    case SubOp => Err(ExecutionError("unsupported binary op in predicate"))
    case MulOp => Err(ExecutionError("unsupported binary op in predicate"))
    case DivOp => Err(ExecutionError("unsupported binary op in predicate"))
    case ModOp => Err(ExecutionError("unsupported binary op in predicate"))
    case _ => ApplyBinary(h, op, l, r)
  }

  /** `substitute_aggregates`: aggregates are read back from the row by their output name. */
  function SubstituteAggregates(h: Host, e: Expr, record: Record, schema: Schema): Result<Value> {
    match e
    case Aggregate(_, _, _) => Lookup(schema, DisplayName(h, e), record)
    case Aliased(inner, _) =>
      if inner.Aggregate? then Lookup(schema, DisplayName(h, e), record)
      else Eval(h, inner, record, schema)
    case Binary(op, l, r) =>
      var lv :- SubstituteAggregates(h, l, record, schema);
      var rv :- SubstituteAggregates(h, r, record, schema);
      if lv.Null? || rv.Null? then Ok(Null) else ApplyBinaryOp(h, op, lv, rv)
    case _ => Eval(h, e, record, schema)
  }

  function AsTruth(v: Value): Result<bool> {
    match v
    case Null => Ok(false)
    case Boolean(b) => Ok(b)
    case _ => Err(TypeError("predicate must return boolean", [DataTypeName(v)]))
  }

  function EvalPredicate(h: Host, e: Expr, record: Record, schema: Schema): Result<bool> {
    var v :- if HasAggregate(e) then SubstituteAggregates(h, e, record, schema) else Eval(h, e, record, schema);
    AsTruth(v)
  }

  /** An expression with an aggregate in it cannot be evaluated against a row. */
  lemma {:induction false} AggregateFails(h: Host, e: Expr, row: Record, schema: Schema)
    requires HasAggregate(e)
    ensures Eval(h, e, row, schema).Err?
  {
    match e
    case Binary(_, l, r) =>
      if HasAggregate(l) {
        AggregateFails(h, l, row, schema);
      } else {
        AggregateFails(h, r, row, schema);
      }
    case Not(i) => AggregateFails(h, i, row, schema);
    case IsNull(i) => AggregateFails(h, i, row, schema);
    case IsNotNull(i) => AggregateFails(h, i, row, schema);
    case Aliased(i, _) => AggregateFails(h, i, row, schema);
    case _ =>
  }

  // ----- filter -----

  function FilterRows(h: Host, e: Expr, rows: seq<Record>, schema: Schema): Result<seq<Record>> {
    if rows == [] then Ok([])
    else
      var keep :- EvalPredicate(h, e, rows[0], schema);
      Prepend(if keep then [rows[0]] else [], FilterRows(h, e, rows[1..], schema))
  }

  method FilterRecords(h: Host, e: Expr, rows: seq<Record>, schema: Schema) returns (r: Result<seq<Record>>)
    ensures r == FilterRows(h, e, rows, schema)
  {
    var kept := [];
    assert rows[0..] == rows;
    PrependUnits(kept, FilterRows(h, e, rows, schema));
    for i := 0 to |rows|
      invariant FilterRows(h, e, rows, schema) == Prepend(kept, FilterRows(h, e, rows[i..], schema))
    {
      assert rows[i..][1..] == rows[i + 1..];
      var keep := EvalPredicate(h, e, rows[i], schema);
      if keep.Err? {
        return Err(keep.error);
      }
      var next := if keep.value then [rows[i]] else [];
      PrependPrepend(kept, next, FilterRows(h, e, rows[i + 1..], schema));
      kept := kept + next;
    }
    PrependUnits(kept, Ok([]));
    return Ok(kept);
  }

  ghost function Truths(h: Host, e: Expr, rows: seq<Record>, schema: Schema): (flags: seq<bool>)
    ensures |flags| == |rows|
    ensures forall i :: 0 <= i < |rows| ==> flags[i] == (EvalPredicate(h, e, rows[i], schema) == Ok(true))
  {
    seq(|rows|, i requires 0 <= i < |rows| => EvalPredicate(h, e, rows[i], schema) == Ok(true))
  }

  /** Filter keeps exactly the rows on which the predicate is true, as a subsequence. */
  lemma {:induction false} FilterKeepsTrueRows(h: Host, e: Expr, rows: seq<Record>, schema: Schema)
    requires FilterRows(h, e, rows, schema).Ok?
    ensures FilterRows(h, e, rows, schema) == Ok(Select(rows, Truths(h, e, rows, schema)))
  {
    hide EvalPredicate;
    if rows != [] {
      var n := |rows| - 1;
      assert rows[..n] + [rows[n]] == rows;
      FilterSplit(h, e, rows[..n], rows[n], schema);
      FilterKeepsTrueRows(h, e, rows[..n], schema);
      assert Truths(h, e, rows, schema)[..n] == Truths(h, e, rows[..n], schema);
    }
  }

  /** Appending a row appends its verdict, unless an earlier row already failed. */
  lemma {:induction false} FilterSplit(h: Host, e: Expr, rows: seq<Record>, last: Record, schema: Schema)
    requires FilterRows(h, e, rows + [last], schema).Ok?
    ensures FilterRows(h, e, rows, schema).Ok? && EvalPredicate(h, e, last, schema).Ok?
    ensures FilterRows(h, e, rows + [last], schema).value
         == FilterRows(h, e, rows, schema).value + (if EvalPredicate(h, e, last, schema).value then [last] else [])
  {
    hide EvalPredicate;
    if rows == [] {
      assert [] + [last] == [last];
      assert FilterRows(h, e, [last][1..], schema) == Ok([]);
    } else {
      assert (rows + [last])[1..] == rows[1..] + [last];
      FilterSplit(h, e, rows[1..], last, schema);
    }
  }

  // ----- project -----

  function ProjectItem(h: Host, e: Expr, record: Record, schema: Schema): Result<seq<Value>> {
    match e
    case Star => Ok(record)
    case Aggregate(_, _, _) => var v :- Lookup(schema, DisplayName(h, e), record); Ok([v])
    case Aliased(inner, _) =>
      var v :- if inner.Aggregate? then Lookup(schema, DisplayName(h, e), record) else Eval(h, inner, record, schema);
      Ok([v])
    case _ => var v :- Eval(h, e, record, schema); Ok([v])
  }

  function ProjectValues(h: Host, es: seq<Expr>, record: Record, schema: Schema): Result<Record> {
    if es == [] then Ok([])
    else
      var vs :- ProjectItem(h, es[0], record, schema);
      Prepend(vs, ProjectValues(h, es[1..], record, schema))
  }

  function ProjectedRow(h: Host, es: seq<Expr>, record: Record, schema: Schema, output: Schema): Result<Record> {
    var row :- ProjectValues(h, es, record, schema);
    match Validate(row, output)
    case Some(e) => Err(e)
    case None => Ok(row)
  }

  /** `project_record` */
  method ProjectRecord(h: Host, es: seq<Expr>, record: Record, schema: Schema, output: Schema)
    returns (r: Result<Record>)
    ensures r == ProjectedRow(h, es, record, schema, output)
  {
    var values := [];
    assert es[0..] == es;
    PrependUnits(values, ProjectValues(h, es, record, schema));
    for i := 0 to |es|
      invariant ProjectValues(h, es, record, schema) == Prepend(values, ProjectValues(h, es[i..], record, schema))
    {
      assert es[i..][1..] == es[i + 1..];
      var item := ProjectItem(h, es[i], record, schema);
      if item.Err? {
        return Err(item.error);
      }
      PrependPrepend(values, item.value, ProjectValues(h, es[i + 1..], record, schema));
      values := values + item.value;
    }
    PrependUnits(values, Ok([]));
    var fault := Validate(values, output);
    if fault.Some? {
      return Err(fault.value);
    }
    return Ok(values);
  }

  function ProjectRows(h: Host, es: seq<Expr>, rows: seq<Record>, schema: Schema, output: Schema): Result<seq<Record>> {
    if rows == [] then Ok([])
    else
      var row :- ProjectedRow(h, es, rows[0], schema, output);
      Prepend([row], ProjectRows(h, es, rows[1..], schema, output))
  }

  method ProjectRecords(h: Host, es: seq<Expr>, rows: seq<Record>, schema: Schema, output: Schema)
    returns (r: Result<seq<Record>>)
    ensures r == ProjectRows(h, es, rows, schema, output)
  {
    var out := [];
    assert rows[0..] == rows;
    PrependUnits(out, ProjectRows(h, es, rows, schema, output));
    for i := 0 to |rows|
      invariant ProjectRows(h, es, rows, schema, output) == Prepend(out, ProjectRows(h, es, rows[i..], schema, output))
    {
      assert rows[i..][1..] == rows[i + 1..];
      var row := ProjectRecord(h, es, rows[i], schema, output);
      if row.Err? {
        return Err(row.error);
      }
      PrependPrepend(out, [row.value], ProjectRows(h, es, rows[i + 1..], schema, output));
      out := out + [row.value];
    }
    PrependUnits(out, Ok([]));
    return Ok(out);
  }

  /** Projection is one output row per input row, in order. */
  lemma {:induction false} ProjectRowsPointwise(h: Host, es: seq<Expr>, rows: seq<Record>, schema: Schema,
        output: Schema)
    requires ProjectRows(h, es, rows, schema, output).Ok?
    ensures var out := ProjectRows(h, es, rows, schema, output).value;
      |out| == |rows| && forall i :: 0 <= i < |rows| ==> ProjectedRow(h, es, rows[i], schema, output) == Ok(out[i])
  {
    if rows != [] {
      ProjectRowsPointwise(h, es, rows[1..], schema, output);
      var rest := ProjectRows(h, es, rows[1..], schema, output).value;
      var out := ProjectRows(h, es, rows, schema, output).value;
      assert forall i :: 1 <= i < |rows| ==> rows[i] == rows[1..][i - 1] && out[i] == rest[i - 1];
    }
  }

  // ----- limit -----

  function FirstRows(rows: seq<Record>, count: nat): seq<Record> {
    if count < |rows| then rows[..count] else rows
  }

  // ----- join -----

  predicate PairAgrees(l: Record, r: Record, ls: Schema, rs: Schema, pair: (string, string)) {
    match (IndexOf(ls, pair.0), IndexOf(rs, pair.1))
    case (Some(i), Some(j)) => ValueEq(GetOrNull(l, i), GetOrNull(r, j))
    case _ => true
  }

  predicate RowsAgree(l: Record, r: Record, ls: Schema, rs: Schema, pairs: JoinPairs) {
    forall k :: 0 <= k < |pairs| ==> PairAgrees(l, r, ls, rs, pairs[k])
  }

  /** The right row's values for the kept fields among `fields`, each read by name. */
  function KeptValues(r: Record, fields: Schema, rs: Schema, pairs: JoinPairs): Record {
    if fields == [] then []
    else
      (if IsJoinColumn(pairs, fields[0].name) then []
       else match IndexOf(rs, fields[0].name)
            case Some(i) => [GetOrNull(r, i)]
            case None => [])
      + KeptValues(r, fields[1..], rs, pairs)
  }

  function JoinedRow(l: Record, r: Record, rs: Schema, pairs: JoinPairs): Record {
    l + KeptValues(r, rs, rs, pairs)
  }

  function Nulls(n: nat): Record {
    seq(n, _ => Null)
  }

  /** All joined rows of one left row, in right order. */
  function MatchesOf(l: Record, rights: seq<Record>, ls: Schema, rs: Schema, pairs: JoinPairs): seq<Record> {
    if rights == [] then []
    else
      var n := |rights| - 1;
      MatchesOf(l, rights[..n], ls, rs, pairs)
      + (if RowsAgree(l, rights[n], ls, rs, pairs) then [JoinedRow(l, rights[n], rs, pairs)] else [])
  }

  function RowsFor(l: Record, rights: seq<Record>, ls: Schema, rs: Schema, pairs: JoinPairs,
                   how: JoinType): seq<Record> {
    var found := MatchesOf(l, rights, ls, rs, pairs);
    if found == [] && how.LeftOuter? then [l + Nulls(|KeptFields(rs, pairs)|)] else found
  }

  function JoinRows(lefts: seq<Record>, rights: seq<Record>, ls: Schema, rs: Schema, pairs: JoinPairs,
                    how: JoinType): seq<Record> {
    if lefts == [] then []
    else
      var n := |lefts| - 1;
      JoinRows(lefts[..n], rights, ls, rs, pairs, how) + RowsFor(lefts[n], rights, ls, rs, pairs, how)
  }

  function JoinedBatch(left: Batch, right: Batch, pairs: JoinPairs, how: JoinType): Result<Batch> {
    if how.RightOuter? || how.FullOuter? then Err(ExecutionError("join not implemented"))
    else
      FromRecords(JoinSchema(left.schema, right.schema, pairs),
                  JoinRows(left.records, right.records, left.schema, right.schema, pairs, how))
  }

  /** The condition loop of one pair of rows, left early at the first disagreement. */
  method AgreeOnPairs(l: Record, r: Record, ls: Schema, rs: Schema, pairs: JoinPairs) returns (cond: bool)
    ensures cond == RowsAgree(l, r, ls, rs, pairs)
  {
    cond := true;
    var k := 0;
    while k < |pairs|
      invariant 0 <= k <= |pairs|
      invariant cond && forall m :: 0 <= m < k ==> PairAgrees(l, r, ls, rs, pairs[m])
    {
      var li, ri := IndexOf(ls, pairs[k].0), IndexOf(rs, pairs[k].1);
      if li.Some? && ri.Some? {
        if !ValueEq(GetOrNull(l, li.value), GetOrNull(r, ri.value)) {
          assert !PairAgrees(l, r, ls, rs, pairs[k]);
          return false;
        }
      }
      k := k + 1;
    }
  }

  method AppendKeptValues(l: Record, r: Record, rs: Schema, pairs: JoinPairs) returns (row: Record)
    ensures row == JoinedRow(l, r, rs, pairs)
  {
    row := l;
    for i := 0 to |rs|
      invariant row + KeptValues(r, rs[i..], rs, pairs) == JoinedRow(l, r, rs, pairs)
    {
      assert rs[i..][1..] == rs[i + 1..];
      if !IsJoinColumn(pairs, rs[i].name) {
        var idx := IndexOf(rs, rs[i].name);
        if idx.Some? {
          assert row + ([GetOrNull(r, idx.value)] + KeptValues(r, rs[i + 1..], rs, pairs))
              == (row + [GetOrNull(r, idx.value)]) + KeptValues(r, rs[i + 1..], rs, pairs);
          row := row + [GetOrNull(r, idx.value)];
        }
      }
    }
  }

  method PadWithNulls(l: Record, rs: Schema, pairs: JoinPairs) returns (row: Record)
    ensures row == l + Nulls(|KeptFields(rs, pairs)|)
  {
    row := l;
    for i := 0 to |rs|
      invariant row + Nulls(|KeptFields(rs[i..], pairs)|) == l + Nulls(|KeptFields(rs, pairs)|)
    {
      assert rs[i..][1..] == rs[i + 1..];
      if !IsJoinColumn(pairs, rs[i].name) {
        var n := |KeptFields(rs[i + 1..], pairs)|;
        assert Nulls(n + 1) == [Null] + Nulls(n);
        assert row + ([Null] + Nulls(n)) == (row + [Null]) + Nulls(n);
        row := row + [Null];
      }
    }
  }

  /** The loop over the right rows for one left row. */
  method MatchRow(l: Record, rights: seq<Record>, ls: Schema, rs: Schema, pairs: JoinPairs) returns (found: seq<Record>)
    ensures found == MatchesOf(l, rights, ls, rs, pairs)
  {
    found := [];
    for j := 0 to |rights|
      invariant found == MatchesOf(l, rights[..j], ls, rs, pairs)
    {
      assert rights[..j + 1][..j] == rights[..j];
      var cond := AgreeOnPairs(l, rights[j], ls, rs, pairs);
      if cond {
        var row := AppendKeptValues(l, rights[j], rs, pairs);
        found := found + [row];
      }
    }
    assert rights[..|rights|] == rights;
  }

  /** `join_batches`: nested loops over left rows, right rows and join pairs. */
  method JoinBatches(left: Batch, right: Batch, pairs: JoinPairs, how: JoinType) returns (res: Result<Batch>)
    ensures res == JoinedBatch(left, right, pairs, how)
  {
    if how.RightOuter? || how.FullOuter? {
      return Err(ExecutionError("join not implemented"));
    }
    var ls, rs := left.schema, right.schema;
    var fields := BuildJoinSchema(ls, rs, pairs);
    var out := [];
    for i := 0 to |left.records|
      invariant out == JoinRows(left.records[..i], right.records, ls, rs, pairs, how)
    {
      assert left.records[..i + 1][..i] == left.records[..i];
      var found := MatchRow(left.records[i], right.records, ls, rs, pairs);
      var matched := found != [];
      out := out + found;
      if !matched && how.LeftOuter? {
        var row := PadWithNulls(left.records[i], rs, pairs);
        out := out + [row];
      }
    }
    assert left.records[..|left.records|] == left.records;
    res := FromRecords(fields, out);
  }

  // ----- distinct -----

  function Renderings(h: Host, row: Record): seq<string> {
    seq(|row|, i requires 0 <= i < |row| => CastToString(h, row[i]))
  }

  /** `join("|")` */
  function JoinBars(parts: seq<string>): string {
    if parts == [] then []
    else if |parts| == 1 then parts[0]
    else parts[0] + "|" + JoinBars(parts[1..])
  }

  function RowKey(h: Host, row: Record): string {
    JoinBars(Renderings(h, row))
  }

  predicate KeyOccurs(h: Host, key: string, rows: seq<Record>, n: nat)
    requires n <= |rows|
  {
    exists j :: 0 <= j < n && RowKey(h, rows[j]) == key
  }

  /** Among the first `n` rows, those whose key occurs at no earlier position. */
  function FirstOccurrences(h: Host, rows: seq<Record>, n: nat): seq<Record>
    requires n <= |rows|
  {
    if n == 0 then []
    else
      FirstOccurrences(h, rows, n - 1)
      + (if KeyOccurs(h, RowKey(h, rows[n - 1]), rows, n - 1) then [] else [rows[n - 1]])
  }

  function DistinctRows(h: Host, rows: seq<Record>): seq<Record> {
    FirstOccurrences(h, rows, |rows|)
  }

  method DistinctRecords(h: Host, rows: seq<Record>) returns (kept: seq<Record>)
    ensures kept == DistinctRows(h, rows)
  {
    kept := [];
    var seen: set<string> := {};
    for i := 0 to |rows|
      invariant kept == FirstOccurrences(h, rows, i)
      invariant forall k :: k in seen <==> KeyOccurs(h, k, rows, i)
    {
      var key := RowKey(h, rows[i]);
      assert KeyOccurs(h, key, rows, i + 1);
      assert forall k :: KeyOccurs(h, k, rows, i) ==> KeyOccurs(h, k, rows, i + 1);
      assert forall k :: KeyOccurs(h, k, rows, i + 1) ==> KeyOccurs(h, k, rows, i) || k == key;
      if key !in seen {
        seen := seen + {key};
        kept := kept + [rows[i]];
      }
    }
  }
}
