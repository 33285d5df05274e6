/** GROUP BY and aggregate functions (crates/rspark-exec/src/operators.rs:304-461): the one-pass map
    of accumulators refines a per-key fold. */
module Aggregating {
  import opened Results
  import opened Subsequences
  import opened Values
  import opened Records
  import opened Expressions
  import opened Plans
  import opened Orders
  import opened Sorting

  // ----- accumulators -----

  datatype Accumulator =
    | CountAcc(n: int)
    | SumAcc(sum: Float)
    | AvgAcc(total: Float, seen: int)
    | MinAcc(least: Option<Value>)
    | MaxAcc(greatest: Option<Value>)

  function NewAccumulator(f: AggregateFn): Accumulator {
    match f
    case Count => CountAcc(0)
    case Sum => SumAcc(Num(0.0))
    case Avg => AvgAcc(Num(0.0), 0)
    case Min => MinAcc(None)
    case Max => MaxAcc(None)
  }

  function Update(h: Host, acc: Accumulator, v: Value): Accumulator {
    match acc
    case CountAcc(n) => if v.Null? then acc else CountAcc(n + 1)
    case SumAcc(s) => (match CastToF64(h, v) case Some(x) => SumAcc(h.add(s, x)) case None => acc)
    case AvgAcc(s, n) => (match CastToF64(h, v) case Some(x) => AvgAcc(h.add(s, x), n + 1) case None => acc)
    case MinAcc(slot) =>
      if v.Null? then acc
      else (match slot
            case None => MinAcc(Some(v))
            case Some(c) => if TryCmp(h, c, v) == Ok(Greater) then MinAcc(Some(v)) else acc)
    case MaxAcc(slot) =>
      if v.Null? then acc
      else (match slot
            case None => MaxAcc(Some(v))
            case Some(c) => if TryCmp(h, c, v) == Ok(Less) then MaxAcc(Some(v)) else acc)
  }

  function Finish(h: Host, acc: Accumulator): Value {
    match acc
    case CountAcc(n) => Int64(n)
    case SumAcc(s) => Float64(s)
    case AvgAcc(s, n) => if n == 0 then Null else Float64(h.div(s, h.i64ToF64(n)))
    case MinAcc(Some(v)) => v
    case MinAcc(None) => Null
    case MaxAcc(Some(v)) => v
    case MaxAcc(None) => Null
  }

  /** The left fold of an aggregate function over its argument values. */
  function Fold(h: Host, f: AggregateFn, vs: seq<Value>): Accumulator {
    if vs == [] then NewAccumulator(f) else Update(h, Fold(h, f, vs[..|vs| - 1]), vs[|vs| - 1])
  }

  // ----- one row's contribution -----

  /** The aggregate call an expression stands for: itself, or the body of an alias. */
  function AggregateCall(e: Expr): Option<Expr> {
    match e
    case Aggregate(_, _, _) => Some(e)
    case Aliased(i, _) => if i.Aggregate? then Some(i) else None
    case _ => None
  }

  /** Other expressions get a COUNT accumulator that is never updated. */
  function AccumulatedFn(e: Expr): AggregateFn {
    match AggregateCall(e)
    case Some(Aggregate(f, _, _)) => f
    case _ => Count
  }

  function EvalAll(h: Host, es: seq<Expr>, row: Record, schema: Schema): Result<seq<Value>> {
    if es == [] then Ok([])
    else
      var v :- Eval(h, es[0], row, schema);
      Prepend([v], EvalAll(h, es[1..], row, schema))
  }

  /** The argument value of each aggregate, `None` where there is no aggregate call. */
  function EvalArgs(h: Host, aggs: seq<Expr>, row: Record, schema: Schema): Result<seq<Option<Value>>> {
    if aggs == [] then Ok([])
    else
      match AggregateCall(aggs[0])
      case Some(Aggregate(_, arg, _)) =>
        (var v :- Eval(h, arg, row, schema);
         Prepend([Some(v)], EvalArgs(h, aggs[1..], row, schema)))
      case _ => Prepend([None], EvalArgs(h, aggs[1..], row, schema))
  }

  /** What one input row contributes: its group values and aggregate arguments. */
  datatype Digest = Digest(values: seq<Value>, args: seq<Option<Value>>)

  function RowDigest(h: Host, groups: seq<Expr>, aggs: seq<Expr>, row: Record, schema: Schema): Result<Digest> {
    var values :- EvalAll(h, groups, row, schema);
    var args :- EvalArgs(h, aggs, row, schema);
    Ok(Digest(values, args))
  }

  function Digests(h: Host, groups: seq<Expr>, aggs: seq<Expr>, rows: seq<Record>,
                   schema: Schema): Result<seq<Digest>> {
    if rows == [] then Ok([])
    else
      var d :- RowDigest(h, groups, aggs, rows[0], schema);
      Prepend([d], Digests(h, groups, aggs, rows[1..], schema))
  }

  function KeyOf(h: Host, d: Digest): Key {
    seq(|d.values|, i requires 0 <= i < |d.values| => CastToString(h, d.values[i]))
  }

  // ----- the specification: one row per key -----

  ghost function Keys(h: Host, ds: seq<Digest>): set<Key> {
    set i | 0 <= i < |ds| :: KeyOf(h, ds[i])
  }

  /** The digests of one group, in input order. */
  ghost function Members(h: Host, ds: seq<Digest>, key: Key): seq<Digest> {
    if ds == [] then []
    else
      var n := |ds| - 1;
      Members(h, ds[..n], key) + (if KeyOf(h, ds[n]) == key then [ds[n]] else [])
  }

  /** The values fed to the `j`-th accumulator by a group. */
  ghost function ArgValues(ms: seq<Digest>, j: nat): seq<Value> {
    if ms == [] then []
    else
      var n := |ms| - 1;
      ArgValues(ms[..n], j) + (if j < |ms[n].args| && ms[n].args[j].Some? then [ms[n].args[j].value] else [])
  }

  ghost function Accumulators(h: Host, aggs: seq<Expr>, ms: seq<Digest>): (accs: seq<Accumulator>)
    ensures |accs| == |aggs|
  {
    if aggs == [] then []
    else
      var n := |aggs| - 1;
      Accumulators(h, aggs[..n], ms) + [Fold(h, AccumulatedFn(aggs[n]), ArgValues(ms, n))]
  }

  lemma {:induction false} AccumulatorsAt(h: Host, aggs: seq<Expr>, ms: seq<Digest>, j: nat)
    requires j < |aggs|
    ensures Accumulators(h, aggs, ms)[j] == Fold(h, AccumulatedFn(aggs[j]), ArgValues(ms, j))
  {
    if j < |aggs| - 1 {
      AccumulatorsAt(h, aggs[..|aggs| - 1], ms, j);
    }
  }

  ghost function FinishAll(h: Host, accs: seq<Accumulator>): (vs: seq<Value>)
    ensures |vs| == |accs|
  {
    if accs == [] then []
    else
      var n := |accs| - 1;
      FinishAll(h, accs[..n]) + [Finish(h, accs[n])]
  }

  lemma {:induction false} FinishAllAt(h: Host, accs: seq<Accumulator>, j: nat)
    requires j < |accs|
    ensures FinishAll(h, accs)[j] == Finish(h, accs[j])
  {
    if j < |accs| - 1 {
      FinishAllAt(h, accs[..|accs| - 1], j);
    }
  }

  /** A group's output row: the group values of its first member, then the finished folds. */
  ghost function GroupRow(h: Host, aggs: seq<Expr>, ms: seq<Digest>): Record {
    FirstValues(ms) + FinishAll(h, Accumulators(h, aggs, ms))
  }

  ghost function FirstValues(ms: seq<Digest>): seq<Value> {
    if ms == [] then [] else ms[0].values
  }

  lemma {:induction false} MembersExist(h: Host, ds: seq<Digest>, key: Key)
    ensures Members(h, ds, key) != [] <==> key in Keys(h, ds)
    ensures forall m :: m in Members(h, ds, key) ==> m in ds && KeyOf(h, m) == key
  {
    if ds != [] {
      var n := |ds| - 1;
      MembersExist(h, ds[..n], key);
      KeysSnoc(h, ds, n);
      assert ds[..n + 1] == ds;
    }
  }

  lemma KeysSnoc(h: Host, ds: seq<Digest>, n: nat)
    requires n < |ds|
    ensures Keys(h, ds[..n + 1]) == Keys(h, ds[..n]) + {KeyOf(h, ds[n])}
  {
    var a, b := ds[..n + 1], ds[..n];
    assert forall i :: 0 <= i < n ==> a[i] == b[i];
    forall k | k in Keys(h, a)
      ensures k in Keys(h, b) + {KeyOf(h, ds[n])}
    {
      var i :| 0 <= i < |a| && KeyOf(h, a[i]) == k;
      if i < n {
        assert KeyOf(h, b[i]) == k;
      }
    }
    forall k | k in Keys(h, b)
      ensures k in Keys(h, a)
    {
      var i :| 0 <= i < |b| && KeyOf(h, b[i]) == k;
      assert KeyOf(h, a[i]) == k;
    }
    assert KeyOf(h, a[n]) == KeyOf(h, ds[n]);
  }

  ghost function RowsOfKeys(h: Host, aggs: seq<Expr>, ds: seq<Digest>, keys: seq<Key>): seq<Record> {
    if keys == [] then []
    else
      var n := |keys| - 1;
      RowsOfKeys(h, aggs, ds, keys[..n]) + [GroupRow(h, aggs, Members(h, ds, keys[n]))]
  }

  ghost function OrderedKeys(h: Host, ds: seq<Digest>): seq<Key> {
    KeyLtStrictTotal();
    Listing(Keys(h, ds), KeyLt)
  }

  /** The output keys are strictly increasing and exactly the keys of the input. */
  lemma OrderedKeysSpec(h: Host, ds: seq<Digest>)
    ensures Increasing(OrderedKeys(h, ds), KeyLt) && Elements(OrderedKeys(h, ds)) == Keys(h, ds)
  {
    KeyLtStrictTotal();
    ListingSpec(Keys(h, ds), KeyLt);
  }

  /** One row per distinct key, in increasing key order. */
  ghost function GroupRows(h: Host, aggs: seq<Expr>, ds: seq<Digest>): seq<Record> {
    RowsOfKeys(h, aggs, ds, OrderedKeys(h, ds))
  }

  ghost function AggregatedRows(h: Host, groups: seq<Expr>, aggs: seq<Expr>, rows: seq<Record>,
                                schema: Schema): Result<seq<Record>> {
    var ds :- Digests(h, groups, aggs, rows, schema);
    Ok(GroupRows(h, aggs, ds))
  }

  // ----- the implementation -----

  datatype GroupState = GroupState(values: seq<Value>, accumulators: seq<Accumulator>)

  method EvalGroup(h: Host, es: seq<Expr>, row: Record, schema: Schema) returns (r: Result<seq<Value>>)
    ensures r == EvalAll(h, es, row, schema)
  {
    var out := [];
    assert es[0..] == es;
    PrependUnits(out, EvalAll(h, es, row, schema));
    for i := 0 to |es|
      invariant EvalAll(h, es, row, schema) == Prepend(out, EvalAll(h, es[i..], row, schema))
    {
      assert es[i..][1..] == es[i + 1..];
      var v := Eval(h, es[i], row, schema);
      if v.Err? {
        return Err(v.error);
      }
      PrependPrepend(out, [v.value], EvalAll(h, es[i + 1..], row, schema));
      out := out + [v.value];
    }
    PrependUnits(out, Ok([]));
    return Ok(out);
  }

  function UpdateIf(h: Host, acc: Accumulator, v: Option<Value>): Accumulator {
    if v.Some? then Update(h, acc, v.value) else acc
  }

  /** The update loop over the aggregates of one row, in place on the group's accumulators. */
  method UpdateAccumulators(h: Host, aggs: seq<Expr>, row: Record, schema: Schema, before: seq<Accumulator>)
    returns (r: Result<seq<Accumulator>>, ghost args: seq<Option<Value>>)
    requires |before| == |aggs|
    ensures r.Err? ==> EvalArgs(h, aggs, row, schema) == Err(r.error)
    ensures r.Ok? ==> EvalArgs(h, aggs, row, schema) == Ok(args) && |args| == |aggs| == |r.value|
    ensures r.Ok? ==> forall j :: 0 <= j < |aggs| ==> r.value[j] == UpdateIf(h, before[j], args[j])
  {
    var accs := before;
    args := [];
    assert aggs[0..] == aggs;
    PrependUnits(args, EvalArgs(h, aggs, row, schema));
    for i := 0 to |aggs|
      invariant |args| == i && |accs| == |aggs|
      invariant EvalArgs(h, aggs, row, schema) == Prepend(args, EvalArgs(h, aggs[i..], row, schema))
      invariant forall j :: 0 <= j < |aggs| ==>
                  accs[j] == if j < i then UpdateIf(h, before[j], args[j]) else before[j]
    {
      assert aggs[i..][1..] == aggs[i + 1..];
      var call := AggregateCall(aggs[i]);
      if call.Some? {
        var v := Eval(h, call.value.arg, row, schema);
        if v.Err? {
          return Err(v.error), args;
        }
        accs := accs[i := Update(h, accs[i], v.value)];
        PrependPrepend(args, [Some(v.value)], EvalArgs(h, aggs[i + 1..], row, schema));
        args := args + [Some(v.value)];
      } else {
        PrependPrepend(args, [None], EvalArgs(h, aggs[i + 1..], row, schema));
        args := args + [None];
      }
    }
    PrependUnits(args, Ok([]));
    return Ok(accs), args;
  }

  function FreshAccumulators(aggs: seq<Expr>): (accs: seq<Accumulator>)
    ensures |accs| == |aggs|
    ensures forall j :: 0 <= j < |aggs| ==> accs[j] == NewAccumulator(AccumulatedFn(aggs[j]))
  {
    seq(|aggs|, j requires 0 <= j < |aggs| => NewAccumulator(AccumulatedFn(aggs[j])))
  }

  /** A group's state: the first member's group values and the folds over all members. */
  ghost predicate StateOf(h: Host, aggs: seq<Expr>, state: GroupState, ms: seq<Digest>) {
    && ms != []
    && state.values == ms[0].values
    && state.accumulators == Accumulators(h, aggs, ms)
  }

  /** The map after a prefix of the input: the states of exactly the groups seen so far. */
  ghost predicate Represents(h: Host, aggs: seq<Expr>, groups: map<Key, GroupState>, ds: seq<Digest>) {
    && groups.Keys == Keys(h, ds)
    && forall k :: k in groups ==> StateOf(h, aggs, groups[k], Members(h, ds, k))
  }

  /** Feeding one more member updates every accumulator to the longer fold. */
  lemma AccumulatorsSnoc(h: Host, aggs: seq<Expr>, ms: seq<Digest>, d: Digest, after: seq<Accumulator>)
    requires |d.args| == |aggs| == |after|
    requires forall j :: 0 <= j < |aggs| ==> after[j] == UpdateIf(h, Accumulators(h, aggs, ms)[j], d.args[j])
    ensures after == Accumulators(h, aggs, ms + [d])
  {
    assert (ms + [d])[..|ms|] == ms;
    forall j | 0 <= j < |aggs|
      ensures after[j] == Accumulators(h, aggs, ms + [d])[j]
    {
      AccumulatorsAt(h, aggs, ms, j);
      AccumulatorsAt(h, aggs, ms + [d], j);
      var vs := ArgValues(ms, j);
      if d.args[j].Some? {
        assert (vs + [d.args[j].value])[..|vs|] == vs;
      } else {
        assert ArgValues(ms + [d], j) == vs;
      }
    }
  }

  lemma MembersSnoc(h: Host, ds: seq<Digest>, d: Digest, key: Key)
    ensures Members(h, ds + [d], key) == Members(h, ds, key) + (if KeyOf(h, d) == key then [d] else [])
  {
    assert (ds + [d])[..|ds|] == ds;
  }

  lemma KeysOfSnoc(h: Host, ds: seq<Digest>, d: Digest)
    ensures Keys(h, ds + [d]) == Keys(h, ds) + {KeyOf(h, d)}
  {
    assert (ds + [d])[..|ds|] == ds && (ds + [d])[..|ds| + 1] == ds + [d];
    KeysSnoc(h, ds + [d], |ds|);
  }

  lemma OtherStatesStep(h: Host, aggs: seq<Expr>, groups: map<Key, GroupState>, ds: seq<Digest>, d: Digest, k: Key)
    requires Represents(h, aggs, groups, ds) && k in groups && k != KeyOf(h, d)
    ensures StateOf(h, aggs, groups[k], Members(h, ds + [d], k))
  {
    MembersSnoc(h, ds, d, k);
    assert Members(h, ds + [d], k) == Members(h, ds, k);
  }

  lemma RepresentsStep(h: Host, aggs: seq<Expr>, groups: map<Key, GroupState>, ds: seq<Digest>, d: Digest,
                       before: GroupState, after: seq<Accumulator>)
    requires Represents(h, aggs, groups, ds)
    requires |d.args| == |aggs| == |after| == |before.accumulators|
    requires before == if KeyOf(h, d) in groups then groups[KeyOf(h, d)]
        else GroupState(d.values, FreshAccumulators(aggs))
    requires forall j :: 0 <= j < |aggs| ==> after[j] == UpdateIf(h, before.accumulators[j], d.args[j])
    ensures Represents(h, aggs, groups[KeyOf(h, d) := GroupState(before.values, after)], ds + [d])
  {
    var key := KeyOf(h, d);
    KeysOfSnoc(h, ds, d);
    KeyStateStep(h, aggs, groups, ds, d, before, after);
    forall k | k in groups && k != key
      ensures StateOf(h, aggs, groups[k], Members(h, ds + [d], k))
    {
      OtherStatesStep(h, aggs, groups, ds, d, k);
    }
  }

  lemma KeyStateStep(h: Host, aggs: seq<Expr>, groups: map<Key, GroupState>, ds: seq<Digest>, d: Digest,
                     before: GroupState, after: seq<Accumulator>)
    requires Represents(h, aggs, groups, ds)
    requires |d.args| == |aggs| == |after| == |before.accumulators|
    requires before == if KeyOf(h, d) in groups then groups[KeyOf(h, d)]
        else GroupState(d.values, FreshAccumulators(aggs))
    requires forall j :: 0 <= j < |aggs| ==> after[j] == UpdateIf(h, before.accumulators[j], d.args[j])
    ensures StateOf(h, aggs, GroupState(before.values, after), Members(h, ds + [d], KeyOf(h, d)))
  {
    var key := KeyOf(h, d);
    var ms := Members(h, ds, key);
    MembersExist(h, ds, key);
    MembersSnoc(h, ds, d, key);
    if key in groups {
      assert StateOf(h, aggs, groups[key], ms);
    } else {
      assert ms == [];
    }
    forall j | 0 <= j < |aggs| && ms == []
      ensures FreshAccumulators(aggs)[j] == Accumulators(h, aggs, ms)[j]
    {
      AccumulatorsAt(h, aggs, ms, j);
    }
    assert before.accumulators == Accumulators(h, aggs, ms);
    AccumulatorsSnoc(h, aggs, ms, d, after);
  }

  /** The pass over the input, maintaining the ordered map of group states. */
  method Accumulate(h: Host, groupExprs: seq<Expr>, aggs: seq<Expr>, rows: seq<Record>, schema: Schema)
    returns (r: Result<map<Key, GroupState>>, ghost ds: seq<Digest>)
    ensures r.Err? ==> Digests(h, groupExprs, aggs, rows, schema) == Err(r.error)
    ensures r.Ok? ==> Digests(h, groupExprs, aggs, rows, schema) == Ok(ds) && Represents(h, aggs, r.value, ds)
  {
    var groups: map<Key, GroupState> := map[];
    ds := [];
    assert rows[0..] == rows;
    PrependUnits(ds, Digests(h, groupExprs, aggs, rows, schema));
    for i := 0 to |rows|
      invariant Digests(h, groupExprs, aggs, rows, schema)
          == Prepend(ds, Digests(h, groupExprs, aggs, rows[i..], schema))
      invariant Represents(h, aggs, groups, ds)
    {
      assert rows[i..][1..] == rows[i + 1..];
      var values := EvalGroup(h, groupExprs, rows[i], schema);
      if values.Err? {
        return Err(values.error), ds;
      }
      var key := seq(|values.value|, j requires 0 <= j < |values.value| => CastToString(h, values.value[j]));
      var entry := if key in groups then groups[key] else GroupState(values.value, FreshAccumulators(aggs));
      var updated, args := UpdateAccumulators(h, aggs, rows[i], schema, entry.accumulators);
      if updated.Err? {
        return Err(updated.error), ds;
      }
      ghost var d := Digest(values.value, args);
      assert key == KeyOf(h, d);
      RepresentsStep(h, aggs, groups, ds, d, entry, updated.value);
      groups := groups[key := GroupState(entry.values, updated.value)];
      PrependPrepend(ds, [d], Digests(h, groupExprs, aggs, rows[i + 1..], schema));
      ds := ds + [d];
    }
    PrependUnits(ds, Ok([]));
    return Ok(groups), ds;
  }

  method FinishRow(h: Host, state: GroupState) returns (row: Record)
    ensures row == state.values + FinishAll(h, state.accumulators)
  {
    row := state.values;
    for j := 0 to |state.accumulators|
      invariant row == state.values + FinishAll(h, state.accumulators[..j])
    {
      assert state.accumulators[..j + 1][..j] == state.accumulators[..j];
      row := row + [Finish(h, state.accumulators[j])];
    }
    assert state.accumulators[..|state.accumulators|] == state.accumulators;
  }

  /** The output loop: one row per map entry, in key order. */
  method EmitRows(h: Host, aggs: seq<Expr>, groups: map<Key, GroupState>, keys: seq<Key>, ghost ds: seq<Digest>)
    returns (out: seq<Record>)
    requires Represents(h, aggs, groups, ds)
    requires forall k :: k in keys ==> k in groups
    ensures out == RowsOfKeys(h, aggs, ds, keys)
  {
    out := [];
    for i := 0 to |keys|
      invariant out == RowsOfKeys(h, aggs, ds, keys[..i])
    {
      assert keys[..i + 1][..i] == keys[..i];
      assert StateOf(h, aggs, groups[keys[i]], Members(h, ds, keys[i]));
      var row := FinishRow(h, groups[keys[i]]);
      out := out + [row];
    }
    assert keys[..|keys|] == keys;
  }

  /** `aggregate_batch` up to the final `from_records`. */
  method AggregateRecords(h: Host, groupExprs: seq<Expr>, aggs: seq<Expr>, rows: seq<Record>, schema: Schema)
    returns (r: Result<seq<Record>>)
    ensures r == AggregatedRows(h, groupExprs, aggs, rows, schema)
  {
    var groups, ds := Accumulate(h, groupExprs, aggs, rows, schema);
    if groups.Err? {
      return Err(groups.error);
    }
    KeyLtStrictTotal();
    var keys := ListInOrder(groups.value.Keys, KeyLt);
    ListingSpec(groups.value.Keys, KeyLt);
    assert forall k :: k in keys ==> k in Elements(keys);
    var out := EmitRows(h, aggs, groups.value, keys, ds);
    return Ok(out);
  }

  // ----- what the folds mean -----

  /** COUNT is the number of non-null arguments. */
  ghost function NonNull(vs: seq<Value>): nat {
    if vs == [] then 0 else NonNull(vs[..|vs| - 1]) + (if vs[|vs| - 1].Null? then 0 else 1)
  }

  lemma {:induction false} CountCounts(h: Host, vs: seq<Value>)
    ensures Fold(h, Count, vs) == CountAcc(NonNull(vs))
  {
    if vs != [] {
      CountCounts(h, vs[..|vs| - 1]);
    }
  }

  // ----- COUNT(*) over all groups is the number of input rows -----

  ghost function GroupSizes(h: Host, ds: seq<Digest>, keys: seq<Key>): nat {
    if keys == [] then 0 else GroupSizes(h, ds, keys[..|keys| - 1]) + |Members(h, ds, keys[|keys| - 1])|
  }

  lemma {:induction false} NoMembers(h: Host, ds: seq<Digest>, keys: seq<Key>)
    requires ds == []
    ensures GroupSizes(h, ds, keys) == 0
  {
    if keys != [] {
      NoMembers(h, ds, keys[..|keys| - 1]);
    }
  }

  lemma {:induction false} GroupSizesSnoc(h: Host, ds: seq<Digest>, d: Digest, keys: seq<Key>)
    requires Increasing(keys, KeyLt)
    ensures GroupSizes(h, ds + [d], keys) == GroupSizes(h, ds, keys) + (if KeyOf(h, d) in keys then 1 else 0)
  {
    if keys != [] {
      var n := |keys| - 1;
      GroupSizesSnoc(h, ds, d, keys[..n]);
      MembersSnoc(h, ds, d, keys[n]);
      KeyLtStrictTotal();
      assert keys[n] !in keys[..n];
      assert forall k :: k in keys <==> k in keys[..n] || k == keys[n];
    }
  }

  /** The groups of any key list that covers the input partition its rows. */
  lemma {:induction false} GroupsPartition(h: Host, ds: seq<Digest>, keys: seq<Key>)
    requires Increasing(keys, KeyLt) && Keys(h, ds) <= Elements(keys)
    ensures GroupSizes(h, ds, keys) == |ds|
  {
    if ds == [] {
      NoMembers(h, ds, keys);
    } else {
      var n := |ds| - 1;
      assert ds[..n] + [ds[n]] == ds && ds[..n + 1] == ds;
      KeysSnoc(h, ds, n);
      GroupsPartition(h, ds[..n], keys);
      GroupSizesSnoc(h, ds[..n], ds[n], keys);
      assert KeyOf(h, ds[n]) in Elements(keys);
    }
  }

  /** `COUNT(*)` is planned as COUNT of the literal 1. */
  predicate CountsRows(e: Expr) {
    match AggregateCall(e)
    case Some(Aggregate(f, arg, _)) => f.Count? && arg == Lit(IntLit(1))
    case _ => false
  }

  lemma {:induction false} EvalArgsAt(h: Host, aggs: seq<Expr>, row: Record, schema: Schema, j: nat)
    requires j < |aggs| && EvalArgs(h, aggs, row, schema).Ok?
    ensures |EvalArgs(h, aggs, row, schema).value| == |aggs|
    ensures match AggregateCall(aggs[j])
            case Some(Aggregate(_, arg, _)) =>
              Eval(h, arg, row, schema).Ok?
              && EvalArgs(h, aggs, row, schema).value[j] == Some(Eval(h, arg, row, schema).value)
            case _ => EvalArgs(h, aggs, row, schema).value[j] == None
  {
    var rest := EvalArgs(h, aggs[1..], row, schema).value;
    if j > 0 {
      EvalArgsAt(h, aggs[1..], row, schema, j - 1);
      assert EvalArgs(h, aggs, row, schema).value[j] == rest[j - 1];
    } else if |aggs| > 1 {
      EvalArgsAt(h, aggs[1..], row, schema, 0);
    } else {
      assert rest == [];
    }
  }

  lemma {:induction false} DigestsAt(h: Host, groups: seq<Expr>, aggs: seq<Expr>, rows: seq<Record>, schema: Schema,
                                     i: nat)
    requires i < |rows| && Digests(h, groups, aggs, rows, schema).Ok?
    ensures |Digests(h, groups, aggs, rows, schema).value| == |rows|
    ensures RowDigest(h, groups, aggs, rows[i], schema) == Ok(Digests(h, groups, aggs, rows, schema).value[i])
  {
    var rest := Digests(h, groups, aggs, rows[1..], schema).value;
    if i > 0 {
      DigestsAt(h, groups, aggs, rows[1..], schema, i - 1);
      assert Digests(h, groups, aggs, rows, schema).value[i] == rest[i - 1];
    } else if |rows| > 1 {
      DigestsAt(h, groups, aggs, rows[1..], schema, 0);
    } else {
      assert rest == [];
    }
  }

  ghost predicate FeedsOnes(ds: seq<Digest>, j: nat) {
    forall i :: 0 <= i < |ds| ==> j < |ds[i].args| && ds[i].args[j] == Some(Int64(1))
  }

  lemma {:induction false} MembersFeedOnes(h: Host, ds: seq<Digest>, key: Key, j: nat)
    requires FeedsOnes(ds, j)
    ensures FeedsOnes(Members(h, ds, key), j)
  {
    if ds != [] {
      MembersFeedOnes(h, ds[..|ds| - 1], key, j);
    }
  }

  lemma {:induction false} OnesAreCounted(ms: seq<Digest>, j: nat)
    requires FeedsOnes(ms, j)
    ensures NonNull(ArgValues(ms, j)) == |ms|
  {
    if ms != [] {
      var n := |ms| - 1;
      OnesAreCounted(ms[..n], j);
      var vs := ArgValues(ms[..n], j);
      assert (vs + [Int64(1)])[..|vs|] == vs;
    }
  }

  /** The sum of one integer column. */
  ghost function ColumnSum(rows: seq<Record>, c: nat): int {
    if rows == [] then 0
    else
      var last := rows[|rows| - 1];
      ColumnSum(rows[..|rows| - 1], c) + (if c < |last| && last[c].Int64? then last[c].l else 0)
  }

  lemma ColumnSumSnoc(rows: seq<Record>, row: Record, c: nat)
    requires c < |row| && row[c].Int64?
    ensures ColumnSum(rows + [row], c) == ColumnSum(rows, c) + row[c].l
  {
    assert (rows + [row])[..|rows|] == rows;
  }

  /** A COUNT(*) cell holds the size of its group. */
  lemma CountCell(h: Host, aggs: seq<Expr>, ms: seq<Digest>, j: nat)
    requires j < |aggs| && AccumulatedFn(aggs[j]).Count? && FeedsOnes(ms, j) && ms != []
    ensures |ms[0].values| + j < |GroupRow(h, aggs, ms)|
    ensures GroupRow(h, aggs, ms)[|ms[0].values| + j] == Int64(|ms|)
  {
    var accs := Accumulators(h, aggs, ms);
    assert accs[j] == CountAcc(|ms|) by {
      AccumulatorsAt(h, aggs, ms, j);
      OnesAreCounted(ms, j);
      CountCounts(h, ArgValues(ms, j));
    }
    FinishAllAt(h, accs, j);
  }

  lemma FirstMember(h: Host, ds: seq<Digest>, key: Key)
    requires Members(h, ds, key) != []
    ensures exists i :: 0 <= i < |ds| && ds[i] == Members(h, ds, key)[0]
  {
    MembersExist(h, ds, key);
    assert Members(h, ds, key)[0] in ds;
  }

  lemma KeyCountCell(h: Host, aggs: seq<Expr>, ds: seq<Digest>, key: Key, j: nat, width: nat)
    requires j < |aggs| && AccumulatedFn(aggs[j]).Count? && FeedsOnes(ds, j) && Members(h, ds, key) != []
    requires forall i :: 0 <= i < |ds| ==> |ds[i].values| == width
    ensures var row := GroupRow(h, aggs, Members(h, ds, key));
      width + j < |row| && row[width + j] == Int64(|Members(h, ds, key)|)
  {
    FirstMember(h, ds, key);
    MembersFeedOnes(h, ds, key, j);
    CountCell(h, aggs, Members(h, ds, key), j);
  }

  lemma {:induction false} CountColumnSum(h: Host, aggs: seq<Expr>, ds: seq<Digest>, keys: seq<Key>, j: nat, width: nat)
    requires j < |aggs| && AccumulatedFn(aggs[j]).Count? && FeedsOnes(ds, j)
    requires forall i :: 0 <= i < |ds| ==> |ds[i].values| == width
    requires forall i :: 0 <= i < |keys| ==> Members(h, ds, keys[i]) != []
    ensures ColumnSum(RowsOfKeys(h, aggs, ds, keys), width + j) == GroupSizes(h, ds, keys)
  {
    if keys != [] {
      var n := |keys| - 1;
      CountColumnSum(h, aggs, ds, keys[..n], j, width);
      KeyCountCell(h, aggs, ds, keys[n], j, width);
      ColumnSumSnoc(RowsOfKeys(h, aggs, ds, keys[..n]), GroupRow(h, aggs, Members(h, ds, keys[n])), width + j);
    }
  }

  lemma {:induction false} EvalAllWidth(h: Host, es: seq<Expr>, row: Record, schema: Schema)
    requires EvalAll(h, es, row, schema).Ok?
    ensures |EvalAll(h, es, row, schema).value| == |es|
  {
    if es != [] {
      EvalAllWidth(h, es[1..], row, schema);
    }
  }

  lemma DigestShape(h: Host, groups: seq<Expr>, aggs: seq<Expr>, rows: seq<Record>, schema: Schema, ds: seq<Digest>)
    requires Digests(h, groups, aggs, rows, schema) == Ok(ds)
    ensures |ds| == |rows|
    ensures forall i :: 0 <= i < |ds| ==> |ds[i].values| == |groups|
  {
    if rows != [] {
      DigestsAt(h, groups, aggs, rows, schema, 0);
    }
    forall i | 0 <= i < |ds|
      ensures |ds[i].values| == |groups|
    {
      DigestsAt(h, groups, aggs, rows, schema, i);
      EvalAllWidth(h, groups, rows[i], schema);
    }
  }

  lemma CountStarFeedsOnes(h: Host, groups: seq<Expr>, aggs: seq<Expr>, rows: seq<Record>, schema: Schema,
                           ds: seq<Digest>, j: nat)
    requires Digests(h, groups, aggs, rows, schema) == Ok(ds) && j < |aggs| && CountsRows(aggs[j])
    ensures FeedsOnes(ds, j)
  {
    DigestShape(h, groups, aggs, rows, schema, ds);
    forall i | 0 <= i < |ds|
      ensures j < |ds[i].args| && ds[i].args[j] == Some(Int64(1))
    {
      DigestsAt(h, groups, aggs, rows, schema, i);
      EvalArgsAt(h, aggs, rows[i], schema, j);
    }
  }

  lemma GroupRowsCount(h: Host, aggs: seq<Expr>, ds: seq<Digest>, j: nat, width: nat)
    requires j < |aggs| && AccumulatedFn(aggs[j]).Count? && FeedsOnes(ds, j)
    requires forall i :: 0 <= i < |ds| ==> |ds[i].values| == width
    ensures ColumnSum(GroupRows(h, aggs, ds), width + j) == |ds|
  {
    var keys := OrderedKeys(h, ds);
    OrderedKeysSpec(h, ds);
    forall i | 0 <= i < |keys|
      ensures Members(h, ds, keys[i]) != []
    {
      assert keys[i] in Elements(keys);
      MembersExist(h, ds, keys[i]);
    }
    CountColumnSum(h, aggs, ds, keys, j, width);
    GroupsPartition(h, ds, keys);
  }

  /** Conservation: the COUNT(*) column of the aggregated rows sums to the number of input rows. */
  lemma CountStarConserved(h: Host, groups: seq<Expr>, aggs: seq<Expr>, rows: seq<Record>, schema: Schema, j: nat)
    requires j < |aggs| && CountsRows(aggs[j])
    requires AggregatedRows(h, groups, aggs, rows, schema).Ok?
    ensures ColumnSum(AggregatedRows(h, groups, aggs, rows, schema).value, |groups| + j) == |rows|
  {
    hide GroupRows, ColumnSum;
    var ds := Digests(h, groups, aggs, rows, schema).value;
    CountStarDigests(h, groups, aggs, rows, schema, ds, j);
  }

  lemma CountsRowsIsCount(e: Expr)
    requires CountsRows(e)
    ensures AccumulatedFn(e).Count?
  {
  }

  lemma CountStarDigests(h: Host, groups: seq<Expr>, aggs: seq<Expr>, rows: seq<Record>, schema: Schema,
                         ds: seq<Digest>, j: nat)
    requires Digests(h, groups, aggs, rows, schema) == Ok(ds) && j < |aggs| && CountsRows(aggs[j])
    ensures ColumnSum(GroupRows(h, aggs, ds), |groups| + j) == |rows|
  {
    hide Digests, GroupRows, ColumnSum, FeedsOnes, CountsRows, AccumulatedFn;
    DigestShape(h, groups, aggs, rows, schema, ds);
    CountStarFeedsOnes(h, groups, aggs, rows, schema, ds, j);
    CountsRowsIsCount(aggs[j]);
    GroupRowsCount(h, aggs, ds, j, |groups|);
  }
}
