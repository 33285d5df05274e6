/** ORDER BY and top-k (crates/rspark-exec/src/operators.rs:464-506). */
module Sorting {
  import opened Results
  import opened Subsequences
  import opened Values
  import opened Records
  import opened Expressions
  import opened Plans
  import opened Orders
  import opened Operators

  /** A row index with its evaluated sort keys. */
  type Keyed = (nat, seq<Value>)

  // ----- the comparator -----

  function DirectedCmp(h: Host, ascending: bool, a: Value, b: Value): Ordering {
    var c := match TryCmp(h, a, b) case Ok(o) => o case Err(_) => Equal;
    if ascending then c else Reverse(c)
  }

  function Directions(order: seq<SortExpr>): (dirs: seq<bool>)
    ensures |dirs| == |order| && forall i :: 0 <= i < |order| ==> dirs[i] == order[i].ascending
  {
    seq(|order|, i requires 0 <= i < |order| => order[i].ascending)
  }

  /** Lexicographic, each key in its own direction. */
  function CompareKeys(h: Host, dirs: seq<bool>, a: seq<Value>, b: seq<Value>): Ordering {
    if dirs == [] || a == [] || b == [] then Equal
    else
      var c := DirectedCmp(h, dirs[0], a[0], b[0]);
      if !c.Equal? then c else CompareKeys(h, dirs[1..], a[1..], b[1..])
  }

  // ----- a reference sort: every stable sort agrees with it on uniform keys, see StableSortUnique -----

  function InsertKeyed(h: Host, dirs: seq<bool>, xs: seq<Keyed>, x: Keyed): seq<Keyed> {
    if xs == [] then [x]
    else
      var n := |xs| - 1;
      if CompareKeys(h, dirs, xs[n].1, x.1).Greater? then InsertKeyed(h, dirs, xs[..n], x) + [xs[n]]
      else xs + [x]
  }

  function StableSort(h: Host, dirs: seq<bool>, xs: seq<Keyed>): seq<Keyed> {
    if xs == [] then []
    else InsertKeyed(h, dirs, StableSort(h, dirs, xs[..|xs| - 1]), xs[|xs| - 1])
  }

  // ----- keys of a batch -----

  function RowKeys(h: Host, order: seq<SortExpr>, row: Record, schema: Schema): Result<seq<Value>> {
    if order == [] then Ok([])
    else
      var v :- Eval(h, order[0].expr, row, schema);
      Prepend([v], RowKeys(h, order[1..], row, schema))
  }

  /** Rows `from`.. paired with their index. */
  function KeyedRows(h: Host, order: seq<SortExpr>, rows: seq<Record>, schema: Schema, from: nat): Result<seq<Keyed>>
    requires from <= |rows|
    decreases |rows| - from
  {
    if from == |rows| then Ok([])
    else
      var ks :- RowKeys(h, order, rows[from], schema);
      Prepend([(from, ks)], KeyedRows(h, order, rows, schema, from + 1))
  }

  /** The rows at the given indices; an index out of range contributes nothing. */
  function RowsAt(rows: seq<Record>, xs: seq<Keyed>): seq<Record> {
    if xs == [] then []
    else
      var n := |xs| - 1;
      RowsAt(rows, xs[..n]) + (if xs[n].0 < |rows| then [rows[xs[n].0]] else [])
  }

  ghost predicate InRange(rows: seq<Record>, xs: seq<Keyed>) {
    forall k :: 0 <= k < |xs| ==> xs[k].0 < |rows|
  }

  lemma {:induction false} RowsAtPointwise(rows: seq<Record>, xs: seq<Keyed>)
    requires InRange(rows, xs)
    ensures |RowsAt(rows, xs)| == |xs|
    ensures forall k :: 0 <= k < |xs| ==> RowsAt(rows, xs)[k] == rows[xs[k].0]
  {
    if xs != [] {
      RowsAtPointwise(rows, xs[..|xs| - 1]);
    }
  }

  function SortedRows(h: Host, order: seq<SortExpr>, rows: seq<Record>, schema: Schema): Result<seq<Record>> {
    var keyed :- KeyedRows(h, order, rows, schema, 0);
    Ok(RowsAt(rows, h.sortBy(Directions(order), keyed)))
  }

  lemma {:induction false} KeyedRowsAre(h: Host, order: seq<SortExpr>, rows: seq<Record>, schema: Schema, from: nat)
    requires from <= |rows| && KeyedRows(h, order, rows, schema, from).Ok?
    ensures var xs := KeyedRows(h, order, rows, schema, from).value;
      && |xs| == |rows| - from
      && forall k :: 0 <= k < |xs| ==>
           xs[k].0 == from + k < |rows| && RowKeys(h, order, rows[from + k], schema) == Ok(xs[k].1)
    decreases |rows| - from
  {
    if from < |rows| {
      KeyedRowsAre(h, order, rows, schema, from + 1);
      var rest := KeyedRows(h, order, rows, schema, from + 1).value;
      var xs := KeyedRows(h, order, rows, schema, from).value;
      assert forall k :: 1 <= k < |xs| ==> xs[k] == rest[k - 1];
    }
  }

  lemma {:induction false} InsertElements(h: Host, dirs: seq<bool>, xs: seq<Keyed>, x: Keyed)
    ensures multiset(InsertKeyed(h, dirs, xs, x)) == multiset(xs) + multiset{x}
  {
    if xs != [] {
      var n := |xs| - 1;
      assert xs == xs[..n] + [xs[n]];
      InsertElements(h, dirs, xs[..n], x);
    }
  }

  /** The sort is a permutation. */
  lemma {:induction false} StableSortElements(h: Host, dirs: seq<bool>, xs: seq<Keyed>)
    ensures multiset(StableSort(h, dirs, xs)) == multiset(xs)
    ensures |StableSort(h, dirs, xs)| == |xs|
    ensures forall x :: x in StableSort(h, dirs, xs) <==> x in xs
  {
    if xs != [] {
      var n := |xs| - 1;
      assert xs == xs[..n] + [xs[n]];
      StableSortElements(h, dirs, xs[..n]);
      InsertElements(h, dirs, StableSort(h, dirs, xs[..n]), xs[n]);
    }
    var ys := StableSort(h, dirs, xs);
    assert |multiset(ys)| == |ys| && |multiset(xs)| == |xs|;
    forall x
      ensures x in ys <==> x in xs
    {
      assert x in ys <==> x in multiset(ys);
      assert x in xs <==> x in multiset(xs);
    }
  }

  /** The inner loop of `sort_batch`: the keys of one row. */
  method EvalKeys(h: Host, order: seq<SortExpr>, row: Record, schema: Schema) returns (r: Result<seq<Value>>)
    ensures r == RowKeys(h, order, row, schema)
  {
    var keys := [];
    assert order[0..] == order;
    PrependUnits(keys, RowKeys(h, order, row, schema));
    for k := 0 to |order|
      invariant RowKeys(h, order, row, schema) == Prepend(keys, RowKeys(h, order[k..], row, schema))
    {
      assert order[k..][1..] == order[k + 1..];
      var v := Eval(h, order[k].expr, row, schema);
      if v.Err? {
        return Err(v.error);
      }
      PrependPrepend(keys, [v.value], RowKeys(h, order[k + 1..], row, schema));
      keys := keys + [v.value];
    }
    PrependUnits(keys, Ok([]));
    return Ok(keys);
  }

  /** The outer loop of `sort_batch`: every row decorated with its index and keys. */
  method Decorate(h: Host, order: seq<SortExpr>, rows: seq<Record>, schema: Schema) returns (r: Result<seq<Keyed>>)
    ensures r == KeyedRows(h, order, rows, schema, 0)
  {
    var indexed: seq<Keyed> := [];
    PrependUnits(indexed, KeyedRows(h, order, rows, schema, 0));
    for i := 0 to |rows|
      invariant KeyedRows(h, order, rows, schema, 0) == Prepend(indexed, KeyedRows(h, order, rows, schema, i))
    {
      var keys := EvalKeys(h, order, rows[i], schema);
      if keys.Err? {
        return Err(keys.error);
      }
      PrependPrepend(indexed, [(i, keys.value)], KeyedRows(h, order, rows, schema, i + 1));
      indexed := indexed + [(i, keys.value)];
    }
    PrependUnits(indexed, Ok([]));
    return Ok(indexed);
  }

  /** `sort_batch`: decorate with keys, sort with the library, look the rows up again. */
  method SortBatch(h: Host, rows: seq<Record>, schema: Schema, order: seq<SortExpr>) returns (r: Result<seq<Record>>)
    ensures r == SortedRows(h, order, rows, schema)
  {
    var indexed := Decorate(h, order, rows, schema);
    if indexed.Err? {
      return Err(indexed.error);
    }
    var perm := h.sortBy(Directions(order), indexed.value);
    var sorted := [];
    for k := 0 to |perm|
      invariant sorted == RowsAt(rows, perm[..k])
    {
      assert perm[..k + 1][..k] == perm[..k];
      if perm[k].0 < |rows| {
        sorted := sorted + [rows[perm[k].0]];
      }
    }
    assert perm[..|perm|] == perm;
    return Ok(sorted);
  }

  // ----- when the comparator is a total preorder -----

  lemma TryCmpFlips(h: Host, a: Value, b: Value)
    requires TryCmp(h, a, b).Ok?
    ensures TryCmp(h, b, a) == Ok(Reverse(TryCmp(h, a, b).value))
    ensures TryCmp(h, a, a).Ok? ==> TryCmp(h, a, a).value.Equal?
  {
    if a.String? {
      CompareStringsEqual(a.s, a.s);
      if b.String? {
        CompareStringsEqual(a.s, b.s);
      }
    }
  }

  /** Whatever the values, comparing the other way round gives the reverse: incomparable ones count as equal. */
  lemma DirectedFlips(h: Host, ascending: bool, a: Value, b: Value)
    ensures DirectedCmp(h, ascending, b, a) == Reverse(DirectedCmp(h, ascending, a, b))
  {
    if TryCmp(h, a, b).Ok? {
      TryCmpFlips(h, a, b);
    } else if TryCmp(h, b, a).Ok? {
      TryCmpFlips(h, b, a);
    }
  }

  lemma {:induction false} CompareKeysReverses(h: Host, dirs: seq<bool>, a: seq<Value>, b: seq<Value>)
    ensures CompareKeys(h, dirs, b, a) == Reverse(CompareKeys(h, dirs, a, b))
  {
    hide DirectedCmp;
    if dirs != [] && a != [] && b != [] {
      DirectedFlips(h, dirs[0], a[0], b[0]);
      CompareKeysReverses(h, dirs[1..], a[1..], b[1..]);
    }
  }

  predicate KeysAtMost(h: Host, dirs: seq<bool>, a: seq<Value>, b: seq<Value>) {
    !CompareKeys(h, dirs, a, b).Greater?
  }

  /** The comparator is a total preorder on these key lists: it reverses on all, and chains on these. */
  ghost predicate IsPreorder(h: Host, dirs: seq<bool>, ks: set<seq<Value>>) {
    forall a, b, c :: a in ks && b in ks && c in ks ==>
      KeysAtMost(h, dirs, a, b) && KeysAtMost(h, dirs, b, c) ==> KeysAtMost(h, dirs, a, c)
  }

  ghost function KeysOf(xs: seq<Keyed>): set<seq<Value>> {
    set k | 0 <= k < |xs| :: xs[k].1
  }

  // ----- column by column -----

  /** Not after, in ascending direction. */
  predicate ValueAtMost(h: Host, a: Value, b: Value) {
    !DirectedCmp(h, true, a, b).Greater?
  }

  /** The comparator of one column is a total preorder on these values. */
  ghost predicate IsChaining(h: Host, vs: set<Value>) {
    forall a, b, c :: a in vs && b in vs && c in vs ==>
      ValueAtMost(h, a, b) && ValueAtMost(h, b, c) ==> ValueAtMost(h, a, c)
  }

  lemma DirectedChains(h: Host, asc: bool, vs: set<Value>, a: Value, b: Value, c: Value)
    requires IsChaining(h, vs) && a in vs && b in vs && c in vs
    requires !DirectedCmp(h, asc, a, b).Greater? && !DirectedCmp(h, asc, b, c).Greater?
    ensures !DirectedCmp(h, asc, a, c).Greater?
    ensures DirectedCmp(h, asc, a, c).Equal? ==> DirectedCmp(h, asc, a, b).Equal? && DirectedCmp(h, asc, b, c).Equal?
  {
    hide TryCmp;
    DirectedFlips(h, true, a, b);
    DirectedFlips(h, true, b, c);
    DirectedFlips(h, true, a, c);
    assert ValueAtMost(h, a, b) <==> asc || DirectedCmp(h, true, a, b).Equal?;
  }

  /** The key lists have one value per column, drawn from the column's values. */
  predicate DrawnFrom(keys: seq<Value>, columns: seq<set<Value>>) {
    |keys| == |columns| && forall i :: 0 <= i < |keys| ==> keys[i] in columns[i]
  }

  lemma {:induction false} CompareKeysChains(h: Host, dirs: seq<bool>, columns: seq<set<Value>>,
                                             a: seq<Value>, b: seq<Value>, c: seq<Value>)
    requires |dirs| == |columns| && DrawnFrom(a, columns) && DrawnFrom(b, columns) && DrawnFrom(c, columns)
    requires forall i :: 0 <= i < |columns| ==> IsChaining(h, columns[i])
    requires KeysAtMost(h, dirs, a, b) && KeysAtMost(h, dirs, b, c)
    ensures KeysAtMost(h, dirs, a, c)
  {
    hide DirectedCmp, IsChaining;
    if dirs != [] {
      DirectedChains(h, dirs[0], columns[0], a[0], b[0], c[0]);
      if DirectedCmp(h, dirs[0], a[0], c[0]).Equal? {
        CompareKeysChains(h, dirs[1..], columns[1..], a[1..], b[1..], c[1..]);
      }
    }
  }

  /** The lexicographic comparator is a total preorder if every column's comparator is. */
  lemma ColumnsMakePreorder(h: Host, dirs: seq<bool>, columns: seq<set<Value>>, ks: set<seq<Value>>)
    requires |dirs| == |columns| && forall i :: 0 <= i < |columns| ==> IsChaining(h, columns[i])
    requires forall a :: a in ks ==> DrawnFrom(a, columns)
    ensures IsPreorder(h, dirs, ks)
  {
    hide KeysAtMost, IsChaining, DrawnFrom;
    forall a, b, c | a in ks && b in ks && c in ks && KeysAtMost(h, dirs, a, b) && KeysAtMost(h, dirs, b, c)
      ensures KeysAtMost(h, dirs, a, c)
    {
      CompareKeysChains(h, dirs, columns, a, b, c);
    }
  }

  // ----- columns of one type, and integer columns -----

  datatype Kind = BooleanKind | Int32Kind | Int64Kind | Float32Kind | Float64Kind | StringKind

  /** Null, or a value of the given variant that is not NaN. */
  predicate OfKind(v: Value, k: Kind) {
    match v
    case Null => true
    case Boolean(_) => k.BooleanKind?
    case Int32(_) => k.Int32Kind?
    case Int64(_) => k.Int64Kind?
    case Float32(f) => k.Float32Kind? && !f.NaN?
    case Float64(d) => k.Float64Kind? && !d.NaN?
    case String(_) => k.StringKind?
  }

  predicate IsIntegerOrNull(v: Value) {
    v.Null? || v.Int32? || v.Int64?
  }

  lemma TryCmpReverses(h: Host, k: Kind, a: Value, b: Value)
    requires OfKind(a, k) && OfKind(b, k)
    ensures TryCmp(h, a, b).Ok? && TryCmp(h, b, a).Ok?
    ensures TryCmp(h, b, a).value == Reverse(TryCmp(h, a, b).value)
    ensures TryCmp(h, a, b).value.Equal? <==> a == b
  {
    if a.String? && b.String? {
      CompareStringsEqual(a.s, b.s);
    }
  }

  lemma TryCmpTransitive(h: Host, k: Kind, a: Value, b: Value, c: Value)
    requires OfKind(a, k) && OfKind(b, k) && OfKind(c, k)
    requires TryCmp(h, a, b) == Ok(Less) && TryCmp(h, b, c) == Ok(Less)
    ensures TryCmp(h, a, c) == Ok(Less)
  {
    if a.String? && b.String? && c.String? {
      CompareStringsTransitive(a.s, b.s, c.s);
    }
  }

  lemma OneKindChains(h: Host, k: Kind, vs: set<Value>)
    requires forall v :: v in vs ==> OfKind(v, k)
    ensures IsChaining(h, vs)
  {
    hide TryCmp, OfKind;
    forall a, b, c | a in vs && b in vs && c in vs && ValueAtMost(h, a, b) && ValueAtMost(h, b, c)
      ensures ValueAtMost(h, a, c)
    {
      TryCmpReverses(h, k, a, b);
      TryCmpReverses(h, k, b, c);
      TryCmpReverses(h, k, a, c);
      if TryCmp(h, a, b) == Ok(Less) && TryCmp(h, b, c) == Ok(Less) {
        TryCmpTransitive(h, k, a, b, c);
      }
    }
  }

  lemma IntegersChain(h: Host, vs: set<Value>)
    requires forall v :: v in vs ==> IsIntegerOrNull(v)
    ensures IsChaining(h, vs)
  {
  }

  /** The values a key column of a declared type holds: one variant without NaN, or integers of both widths. */
  datatype ColumnType = OneKind(kind: Kind) | Integers

  predicate OfType(v: Value, t: ColumnType) {
    match t
    case OneKind(k) => OfKind(v, k)
    case Integers => IsIntegerOrNull(v)
  }

  predicate KeysOfTypes(keys: seq<Value>, types: seq<ColumnType>) {
    |keys| == |types| && forall i :: 0 <= i < |keys| ==> OfType(keys[i], types[i])
  }

  ghost function ColumnValues(ks: set<seq<Value>>, i: nat): set<Value> {
    set a | a in ks && i < |a| :: a[i]
  }

  /** On typed columns, nulls included, the comparator is a total preorder. */
  lemma TypedKeysArePreorder(h: Host, dirs: seq<bool>, types: seq<ColumnType>, ks: set<seq<Value>>)
    requires |dirs| == |types| && forall a :: a in ks ==> KeysOfTypes(a, types)
    ensures IsPreorder(h, dirs, ks)
  {
    hide IsChaining, IsPreorder, OfKind;
    var columns := seq(|types|, i requires 0 <= i < |types| => ColumnValues(ks, i));
    forall i | 0 <= i < |columns|
      ensures IsChaining(h, columns[i])
    {
      match types[i]
      case OneKind(k) => OneKindChains(h, k, columns[i]);
      case Integers => IntegersChain(h, columns[i]);
    }
    ColumnsMakePreorder(h, dirs, columns, ks);
  }

  // ----- sortedness, stability, uniqueness -----

  /** Position order of a stable sorted arrangement: smaller key first, equal keys in index order. */
  predicate Before(h: Host, dirs: seq<bool>, x: Keyed, y: Keyed) {
    var c := CompareKeys(h, dirs, x.1, y.1);
    c.Less? || (c.Equal? && x.0 < y.0)
  }

  ghost predicate StablySorted(h: Host, dirs: seq<bool>, xs: seq<Keyed>) {
    forall i, j :: 0 <= i < j < |xs| ==> Before(h, dirs, xs[i], xs[j])
  }

  ghost predicate IndicesAscend(xs: seq<Keyed>) {
    forall i, j :: 0 <= i < j < |xs| ==> xs[i].0 < xs[j].0
  }

  lemma {:induction false} InsertSorted(h: Host, dirs: seq<bool>, ks: set<seq<Value>>, xs: seq<Keyed>, x: Keyed)
    requires IsPreorder(h, dirs, ks) && x.1 in ks && forall k :: 0 <= k < |xs| ==> xs[k].1 in ks
    requires StablySorted(h, dirs, xs)
    requires forall k :: 0 <= k < |xs| ==> xs[k].0 < x.0
    ensures StablySorted(h, dirs, InsertKeyed(h, dirs, xs, x))
    ensures forall y :: y in InsertKeyed(h, dirs, xs, x) <==> y in xs || y == x
  {
    hide CompareKeys;
    if xs != [] {
      var n := |xs| - 1;
      CompareKeysReverses(h, dirs, xs[n].1, x.1);
      if CompareKeys(h, dirs, xs[n].1, x.1).Greater? {
        InsertSorted(h, dirs, ks, xs[..n], x);
        var ys := InsertKeyed(h, dirs, xs[..n], x);
        assert forall k :: 0 <= k < |ys| ==> ys[k] in ys;
        forall k | 0 <= k < |ys|
          ensures Before(h, dirs, ys[k], xs[n])
        {
          assert ys[k] in xs[..n] || ys[k] == x;
        }
        assert forall y :: y in ys + [xs[n]] <==> y in ys || y == xs[n];
        assert forall y :: y in xs <==> y in xs[..n] || y == xs[n];
      } else {
        forall k | 0 <= k < |xs|
          ensures Before(h, dirs, xs[k], x)
        {
          if k < n {
            assert Before(h, dirs, xs[k], xs[n]);
            assert KeysAtMost(h, dirs, xs[k].1, xs[n].1) && KeysAtMost(h, dirs, xs[n].1, x.1);
            assert KeysAtMost(h, dirs, xs[k].1, x.1);
          }
        }
      }
    }
  }

  lemma {:induction false} PrefixSorts(h: Host, dirs: seq<bool>, ks: set<seq<Value>>, xs: seq<Keyed>)
    requires IsPreorder(h, dirs, ks) && IndicesAscend(xs) && forall k :: 0 <= k < |xs| ==> xs[k].1 in ks
    ensures StablySorted(h, dirs, StableSort(h, dirs, xs))
  {
    hide IsPreorder;
    if xs != [] {
      var n := |xs| - 1;
      PrefixSorts(h, dirs, ks, xs[..n]);
      StableSortElements(h, dirs, xs[..n]);
      var ys := StableSort(h, dirs, xs[..n]);
      forall k | 0 <= k < |ys|
        ensures ys[k].1 in ks && ys[k].0 < xs[n].0
      {
        assert ys[k] in xs[..n];
      }
      InsertSorted(h, dirs, ks, ys, xs[n]);
    }
  }

  /** Where the comparator is a total preorder the result is sorted and stable. */
  lemma StableSortSorts(h: Host, dirs: seq<bool>, xs: seq<Keyed>)
    requires IsPreorder(h, dirs, KeysOf(xs)) && IndicesAscend(xs)
    ensures StablySorted(h, dirs, StableSort(h, dirs, xs))
  {
    PrefixSorts(h, dirs, KeysOf(xs), xs);
  }

  /** Any stably sorted arrangement of the same rows is this one. */
  lemma StableSortUnique(h: Host, dirs: seq<bool>, xs: seq<Keyed>, ys: seq<Keyed>)
    requires IsPreorder(h, dirs, KeysOf(xs)) && IndicesAscend(xs)
    requires StablySorted(h, dirs, ys) && Elements(ys) == Elements(xs)
    ensures ys == StableSort(h, dirs, xs)
  {
    hide IsPreorder, CompareKeys;
    StableSortSorts(h, dirs, xs);
    StableSortElements(h, dirs, xs);
    var zs := StableSort(h, dirs, xs);
    assert Elements(zs) == Elements(xs);
    var lt := (x: Keyed, y: Keyed) => Before(h, dirs, x, y);
    forall x, y | x in Elements(ys) && y in Elements(ys)
      ensures !(lt(x, y) && lt(y, x))
    {
      CompareKeysReverses(h, dirs, x.1, y.1);
    }
    IncreasingUnique(ys, zs, lt);
  }

  /** Nulls of the leading key come first when ascending and last when descending. */
  lemma NullPlacement(h: Host, dirs: seq<bool>, xs: seq<Keyed>)
    requires |dirs| > 0 && IsPreorder(h, dirs, KeysOf(xs)) && IndicesAscend(xs)
    ensures var sorted := StableSort(h, dirs, xs);
      forall i, j :: 0 <= i < j < |sorted| && |sorted[i].1| > 0 && |sorted[j].1| > 0 ==>
        if dirs[0] then sorted[j].1[0].Null? ==> sorted[i].1[0].Null?
        else sorted[i].1[0].Null? ==> sorted[j].1[0].Null?
  {
    hide IsPreorder;
    StableSortSorts(h, dirs, xs);
    var sorted := StableSort(h, dirs, xs);
    forall i, j | 0 <= i < j < |sorted| && |sorted[i].1| > 0 && |sorted[j].1| > 0
      ensures if dirs[0] then sorted[j].1[0].Null? ==> sorted[i].1[0].Null?
              else sorted[i].1[0].Null? ==> sorted[j].1[0].Null?
    {
      assert Before(h, dirs, sorted[i], sorted[j]);
    }
  }

  // ----- the same at the level of rows -----

  ghost function RowKeySet(h: Host, order: seq<SortExpr>, rows: seq<Record>, schema: Schema): set<seq<Value>> {
    set i | 0 <= i < |rows| && RowKeys(h, order, rows[i], schema).Ok? :: RowKeys(h, order, rows[i], schema).value
  }

  /** Every row's keys evaluate, and the comparator is a total preorder on them. */
  ghost predicate Sortable(h: Host, order: seq<SortExpr>, rows: seq<Record>, schema: Schema) {
    && (forall i :: 0 <= i < |rows| ==> RowKeys(h, order, rows[i], schema).Ok?)
    && IsPreorder(h, Directions(order), RowKeySet(h, order, rows, schema))
  }

  /** For instance when every key column is typed: `ORDER BY COALESCE(c, 0)` mixes integer widths. */
  lemma TypedRowsAreSortable(h: Host, order: seq<SortExpr>, rows: seq<Record>, schema: Schema, types: seq<ColumnType>)
    requires |types| == |order|
    requires forall i :: 0 <= i < |rows| ==>
      RowKeys(h, order, rows[i], schema).Ok? && KeysOfTypes(RowKeys(h, order, rows[i], schema).value, types)
    ensures Sortable(h, order, rows, schema)
  {
    hide IsPreorder, KeysOfTypes, RowKeys;
    TypedKeysArePreorder(h, Directions(order), types, RowKeySet(h, order, rows, schema));
  }

  ghost predicate SortsAfter(h: Host, order: seq<SortExpr>, schema: Schema, a: Record, b: Record)
    requires RowKeys(h, order, a, schema).Ok? && RowKeys(h, order, b, schema).Ok?
  {
    CompareKeys(h, Directions(order), RowKeys(h, order, a, schema).value, RowKeys(h, order, b, schema).value).Greater?
  }

  lemma {:induction false} KeyedRowsSucceed(h: Host, order: seq<SortExpr>, rows: seq<Record>, schema: Schema, from: nat)
    requires from <= |rows| && forall i :: 0 <= i < |rows| ==> RowKeys(h, order, rows[i], schema).Ok?
    ensures KeyedRows(h, order, rows, schema, from).Ok?
    decreases |rows| - from
  {
    if from < |rows| {
      KeyedRowsSucceed(h, order, rows, schema, from + 1);
    }
  }

  lemma RowsAtSnoc(rows: seq<Record>, xs: seq<Keyed>, x: Keyed)
    ensures RowsAt(rows, xs + [x]) == RowsAt(rows, xs) + (if x.0 < |rows| then [rows[x.0]] else [])
  {
    assert (xs + [x])[..|xs|] == xs;
  }

  lemma {:induction false} RowsAtAppend(rows: seq<Record>, xs: seq<Keyed>, ys: seq<Keyed>)
    ensures RowsAt(rows, xs + ys) == RowsAt(rows, xs) + RowsAt(rows, ys)
  {
    if ys == [] {
      assert xs + ys == xs;
    } else {
      var n := |ys| - 1;
      RowsAtAppend(rows, xs, ys[..n]);
      assert xs + ys == (xs + ys[..n]) + [ys[n]];
      RowsAtSnoc(rows, xs + ys[..n], ys[n]);
    }
  }

  /** Taking out one entry takes out its row. */
  lemma RowsAtRemove(rows: seq<Record>, xs: seq<Keyed>, ys: seq<Keyed>, x: Keyed)
    ensures multiset(RowsAt(rows, xs + [x] + ys)) == multiset(RowsAt(rows, xs + ys)) + multiset(RowsAt(rows, [x]))
  {
    hide RowsAt;
    RowsAtAppend(rows, xs + [x], ys);
    RowsAtAppend(rows, xs, [x]);
    RowsAtAppend(rows, xs, ys);
  }

  lemma CancelEntry(init: seq<Keyed>, a: seq<Keyed>, b: seq<Keyed>, x: Keyed)
    requires multiset(init + [x] + []) == multiset(a + [x] + b)
    ensures multiset(init) == multiset(a + b)
  {
    assert multiset(init + [x] + []) == multiset(init) + multiset{x};
    assert multiset(a + [x] + b) == multiset(a) + multiset{x} + multiset(b);
    assert multiset(a + b) == multiset(a) + multiset(b);
    assert multiset(init) == (multiset(init) + multiset{x}) - multiset{x};
  }

  /** Looking rows up along a permutation of the entries permutes the rows. */
  lemma {:induction false} RowsAtPermutes(rows: seq<Record>, xs: seq<Keyed>, ys: seq<Keyed>)
    requires multiset(xs) == multiset(ys)
    ensures multiset(RowsAt(rows, xs)) == multiset(RowsAt(rows, ys))
  {
    hide RowsAt;
    assert |multiset(xs)| == |xs| && |multiset(ys)| == |ys|;
    if xs == [] {
      assert ys == [];
    } else {
      var n := |xs| - 1;
      var x := xs[n];
      assert xs == xs[..n] + [x] + [] && xs[..n] + [] == xs[..n];
      assert x in multiset(xs);
      var j :| 0 <= j < |ys| && ys[j] == x;
      var a, b := ys[..j], ys[j + 1..];
      assert ys == a + [x] + b;
      CancelEntry(xs[..n], a, b, x);
      RowsAtPermutes(rows, xs[..n], a + b);
      RowsAtRemove(rows, xs[..n], [], x);
      RowsAtRemove(rows, a, b, x);
    }
  }

  // ----- what the library promises -----

  /** Whatever the comparator, the library sort returns a permutation. */
  ghost predicate LibraryPermutes(h: Host) {
    forall dirs, xs :: multiset(h.sortBy(dirs, xs)) == multiset(xs)
  }

  /** Where the comparator is a total preorder, the library sort is sorted and stable. */
  ghost predicate LibraryIsStable(h: Host) {
    && LibraryPermutes(h)
    && forall dirs, xs ::
         IsPreorder(h, dirs, KeysOf(xs)) && IndicesAscend(xs) ==> StablySorted(h, dirs, h.sortBy(dirs, xs))
  }

  /** That promise determines the result: it is the reference sort's. */
  lemma LibrarySortIs(h: Host, dirs: seq<bool>, xs: seq<Keyed>)
    requires LibraryIsStable(h) && IsPreorder(h, dirs, KeysOf(xs)) && IndicesAscend(xs)
    ensures h.sortBy(dirs, xs) == StableSort(h, dirs, xs)
  {
    hide IsPreorder, StableSort, IndicesAscend, StablySorted;
    var ys := h.sortBy(dirs, xs);
    forall x
      ensures x in ys <==> x in xs
    {
      assert x in ys <==> x in multiset(ys);
      assert x in xs <==> x in multiset(xs);
    }
    assert Elements(ys) == Elements(xs);
    StableSortUnique(h, dirs, xs, ys);
  }

  /** `sort_batch` permutes the rows whatever the keys are. */
  lemma SortPermutesRows(h: Host, order: seq<SortExpr>, rows: seq<Record>, schema: Schema)
    requires LibraryPermutes(h) && SortedRows(h, order, rows, schema).Ok?
    ensures multiset(SortedRows(h, order, rows, schema).value) == multiset(rows)
  {
    KeyedRowsAre(h, order, rows, schema, 0);
    var keyed := KeyedRows(h, order, rows, schema, 0).value;
    RowsAtPermutes(rows, h.sortBy(Directions(order), keyed), keyed);
    RowsInOwnOrder(rows, keyed);
  }

  /** The index and keys belong to one row. */
  ghost predicate Decorates(h: Host, order: seq<SortExpr>, rows: seq<Record>, schema: Schema, x: Keyed) {
    x.0 < |rows| && RowKeys(h, order, rows[x.0], schema) == Ok(x.1)
  }

  lemma DecoratedRows(h: Host, order: seq<SortExpr>, rows: seq<Record>, schema: Schema, keyed: seq<Keyed>)
    requires KeyedRows(h, order, rows, schema, 0) == Ok(keyed)
    ensures |keyed| == |rows|
    ensures forall k :: 0 <= k < |keyed| ==> keyed[k].0 == k && Decorates(h, order, rows, schema, keyed[k])
    ensures KeysOf(keyed) == RowKeySet(h, order, rows, schema)
  {
    hide RowKeys;
    KeyedRowsAre(h, order, rows, schema, 0);
    forall k | 0 <= k < |keyed|
      ensures keyed[k].0 == k && RowKeys(h, order, rows[k], schema) == Ok(keyed[k].1)
    {
      assert RowKeys(h, order, rows[0 + k], schema) == Ok(keyed[k].1);
    }
    forall a
      ensures a in KeysOf(keyed) <==> a in RowKeySet(h, order, rows, schema)
    {
      if a in RowKeySet(h, order, rows, schema) {
        var i :| 0 <= i < |rows| && RowKeys(h, order, rows[i], schema) == Ok(a);
        assert keyed[i].1 == a;
      }
      if a in KeysOf(keyed) {
        var k :| 0 <= k < |keyed| && keyed[k].1 == a;
        assert RowKeys(h, order, rows[k], schema) == Ok(a);
      }
    }
  }

  lemma RowsInOwnOrder(rows: seq<Record>, keyed: seq<Keyed>)
    requires |keyed| == |rows| && forall k :: 0 <= k < |keyed| ==> keyed[k].0 == k
    ensures RowsAt(rows, keyed) == rows
  {
    RowsAtPointwise(rows, keyed);
  }

  /** The sorted rows, as the keyed permutation they come from. */
  lemma SortedRowsAre(h: Host, order: seq<SortExpr>, rows: seq<Record>, schema: Schema) returns (sorted: seq<Keyed>)
    requires LibraryIsStable(h) && Sortable(h, order, rows, schema)
    ensures SortedRows(h, order, rows, schema) == Ok(RowsAt(rows, sorted))
    ensures InRange(rows, sorted) && StablySorted(h, Directions(order), sorted)
    ensures forall k :: 0 <= k < |sorted| ==> Decorates(h, order, rows, schema, sorted[k])
    ensures multiset(RowsAt(rows, sorted)) == multiset(rows)
  {
    hide IsPreorder, RowKeys, StableSort;
    KeyedRowsSucceed(h, order, rows, schema, 0);
    var keyed := KeyedRows(h, order, rows, schema, 0).value;
    DecoratedRows(h, order, rows, schema, keyed);
    sorted := StableSort(h, Directions(order), keyed);
    StableSortElements(h, Directions(order), keyed);
    StableSortSorts(h, Directions(order), keyed);
    forall k | 0 <= k < |sorted|
      ensures Decorates(h, order, rows, schema, sorted[k])
    {
      assert sorted[k] in keyed;
    }
    LibrarySortIs(h, Directions(order), keyed);
    SortPermutesRows(h, order, rows, schema);
  }

  /** ORDER BY ... LIMIT n on sortable rows: a permutation of the input is split into kept and dropped
      rows, and no row sorts after a row behind it. */
  lemma OrderByLimit(h: Host, order: seq<SortExpr>, rows: seq<Record>, schema: Schema, count: nat)
    requires LibraryIsStable(h) && Sortable(h, order, rows, schema)
    ensures SortedRows(h, order, rows, schema).Ok?
    ensures var out := SortedRows(h, order, rows, schema).value;
      && multiset(out) == multiset(rows)
      && FirstRows(out, count) <= out
      && |FirstRows(out, count)| == (if count < |rows| then count else |rows|)
      && (forall i :: 0 <= i < |out| ==> RowKeys(h, order, out[i], schema).Ok?)
      && forall i, j :: 0 <= i < j < |out| ==> !SortsAfter(h, order, schema, out[i], out[j])
  {
    hide IsPreorder, CompareKeys, Sortable, LibraryIsStable, SortsAfter, RowKeys, Decorates, StablySorted, SortedRows;
    var sorted := SortedRowsAre(h, order, rows, schema);
    RowsAtPointwise(rows, sorted);
    var out := RowsAt(rows, sorted);
    assert |multiset(out)| == |out| && |multiset(rows)| == |rows|;
    forall i | 0 <= i < |out|
      ensures RowKeys(h, order, out[i], schema).Ok?
    {
      DecoratedKeys(h, order, rows, schema, sorted[i]);
    }
    forall i, j | 0 <= i < j < |out|
      ensures !SortsAfter(h, order, schema, out[i], out[j])
    {
      SortedPair(h, order, rows, schema, sorted, i, j);
    }
  }

  lemma DecoratedKeys(h: Host, order: seq<SortExpr>, rows: seq<Record>, schema: Schema, x: Keyed)
    requires Decorates(h, order, rows, schema, x)
    ensures x.0 < |rows| && RowKeys(h, order, rows[x.0], schema) == Ok(x.1)
  {
    hide RowKeys;
  }

  lemma SortedPair(h: Host, order: seq<SortExpr>, rows: seq<Record>, schema: Schema, sorted: seq<Keyed>, i: nat, j: nat)
    requires i < j < |sorted| && StablySorted(h, Directions(order), sorted)
    requires Decorates(h, order, rows, schema, sorted[i]) && Decorates(h, order, rows, schema, sorted[j])
    ensures !SortsAfter(h, order, schema, rows[sorted[i].0], rows[sorted[j].0])
  {
    hide CompareKeys, RowKeys;
    assert Before(h, Directions(order), sorted[i], sorted[j]);
  }
}
