/** What the comparisons mean (crates/rspark-core/src/value.rs:87-128): an order of values that does not mention
    the comparator, and the comparator, the sort keys, MIN, MAX and the group order against it. */
module Comparisons {
  import opened Results
  import opened Values
  import opened Records
  import opened Expressions
  import opened Plans
  import opened Orders
  import opened Sorting
  import opened Aggregating
  import opened Extremes

  // ----- strings and lists of strings -----

  /** `a` and `b` agree before position `k`, and there `a` has ended or has the smaller character. */
  ghost predicate DropsAt(a: string, b: string, k: nat) {
    k <= |a| && k < |b| && a[..k] == b[..k] && (k == |a| || a[k] < b[k])
  }

  ghost predicate StringBelow(a: string, b: string) {
    exists k :: DropsAt(a, b, k)
  }

  lemma DropsAtTail(a: string, b: string, k: nat)
    requires a != [] && b != [] && a[0] == b[0]
    ensures DropsAt(a[1..], b[1..], k) <==> DropsAt(a, b, k + 1)
  {
    if k <= |a| - 1 && k <= |b| - 1 {
      assert a[..k + 1] == [a[0]] + a[1..][..k] && b[..k + 1] == [b[0]] + b[1..][..k];
    }
  }

  lemma {:induction false} CompareStringsIs(a: string, b: string)
    ensures CompareStrings(a, b).Less? <==> StringBelow(a, b)
    decreases |a|
  {
    if a == [] || b == [] || a[0] < b[0] {
      if b != [] {
        assert DropsAt(a, b, 0) || b == [];
      }
    } else if a[0] == b[0] {
      CompareStringsIs(a[1..], b[1..]);
      if StringBelow(a[1..], b[1..]) {
        var k: nat :| DropsAt(a[1..], b[1..], k);
        DropsAtTail(a, b, k);
      }
      if StringBelow(a, b) {
        var k: nat :| DropsAt(a, b, k);
        assert k > 0;
        DropsAtTail(a, b, k - 1);
      }
    } else {
      forall k: nat
        ensures !DropsAt(a, b, k)
      {
        assert k > 0 && k <= |a| && k < |b| ==> a[..k][0] == a[0] && b[..k][0] == b[0];
      }
    }
  }

  /** The order of group rows: by the first differing group column. */
  ghost predicate KeyDropsAt(a: Key, b: Key, k: nat) {
    k <= |a| && k < |b| && a[..k] == b[..k] && (k == |a| || StringBelow(a[k], b[k]))
  }

  ghost predicate KeyBelow(a: Key, b: Key) {
    exists k :: KeyDropsAt(a, b, k)
  }

  lemma {:induction false} KeyLtIs(a: Key, b: Key)
    ensures KeyLt(a, b) <==> KeyBelow(a, b)
    decreases |a|
  {
    hide StringBelow;
    if a == [] || b == [] {
      if b != [] {
        assert KeyDropsAt(a, b, 0);
      }
    } else {
      CompareStringsIs(a[0], b[0]);
      if StringBelow(a[0], b[0]) {
        assert KeyDropsAt(a, b, 0);
      }
      KeyLtIs(a[1..], b[1..]);
      if a[0] == b[0] && KeyBelow(a[1..], b[1..]) {
        var k: nat :| KeyDropsAt(a[1..], b[1..], k);
        assert a[..k + 1] == [a[0]] + a[1..][..k] && b[..k + 1] == [b[0]] + b[1..][..k];
        assert KeyDropsAt(a, b, k + 1);
      }
      if KeyBelow(a, b) {
        var k: nat :| KeyDropsAt(a, b, k);
        if k > 0 {
          assert a[..k][0] == a[0] && b[..k][0] == b[0];
          assert a[1..][..k - 1] == a[..k][1..] && b[1..][..k - 1] == b[..k][1..];
          assert KeyDropsAt(a[1..], b[1..], k - 1);
        }
      }
    }
  }

  // ----- values -----

  predicate FloatBelow(x: Float, y: Float) {
    match (x, y)
    case (Num(a), Num(b)) => a < b
    case (NegInf, Num(_)) => true
    case (NegInf, PosInf) => true
    case (Num(_), PosInf) => true
    case _ => false
  }

  function IntegerOf(v: Value): int {
    match v
    case Int32(i) => i
    case Int64(l) => l
    case _ => 0
  }

  /** The two values have an order: null with anything, equal types, integers of any width, Float64 with any
      number; a NaN has none. */
  predicate Ordered(h: Host, a: Value, b: Value) {
    || a.Null? || b.Null?
    || (a.Boolean? && b.Boolean?) || (a.String? && b.String?)
    || (IsInteger(a) && IsInteger(b))
    || (a.Float32? && b.Float32? && !a.f.NaN? && !b.f.NaN?)
    || (IsNumber(a) && IsNumber(b) && (a.Float64? || b.Float64?) && !AsF64(h, a).NaN? && !AsF64(h, b).NaN?)
  }

  /** `a` comes before `b`: null first, false before true, numbers by size (across types as Float64), strings by
      their first differing character. */
  ghost predicate Smaller(h: Host, a: Value, b: Value) {
    match (a, b)
    case (Null, _) => !b.Null?
    case (_, Null) => false
    case (Boolean(x), Boolean(y)) => !x && y
    case (String(x), String(y)) => StringBelow(x, y)
    case (Float32(x), Float32(y)) => FloatBelow(x, y)
    case _ =>
      if IsInteger(a) && IsInteger(b) then IntegerOf(a) < IntegerOf(b)
      else IsNumber(a) && IsNumber(b) && (a.Float64? || b.Float64?) && FloatBelow(AsF64(h, a), AsF64(h, b))
  }

  lemma CompareFloatsIs(x: Float, y: Float)
    ensures CompareFloats(x, y).Some? <==> !x.NaN? && !y.NaN?
    ensures CompareFloats(x, y) == Some(Less) <==> FloatBelow(x, y)
    ensures CompareFloats(x, y) == Some(Greater) <==> FloatBelow(y, x)
  {
  }

  /** The comparator on all values. */
  lemma TryCmpExactly(h: Host, a: Value, b: Value)
    ensures TryCmp(h, a, b).Ok? <==> Ordered(h, a, b)
    ensures TryCmp(h, a, b) == Ok(Less) <==> Smaller(h, a, b)
    ensures TryCmp(h, a, b) == Ok(Greater) <==> Smaller(h, b, a)
  {
    hide StringBelow, CompareStrings;
    if a.String? && b.String? {
      CompareStringsIs(a.s, b.s);
      CompareStringsIs(b.s, a.s);
      CompareStringsEqual(a.s, b.s);
    }
  }

  predicate IsNaN(v: Value) {
    (v.Float32? && v.f.NaN?) || (v.Float64? && v.d.NaN?)
  }

  /** Equality in joins, IN and `=`: the same value of the same type, and not NaN. */
  lemma ValueEqExactly(a: Value, b: Value)
    ensures ValueEq(a, b) <==> a == b && !IsNaN(a)
  {
  }

  // ----- sort keys -----

  /** Neither comes before the other. */
  ghost predicate Level(h: Host, a: Value, b: Value) {
    !Smaller(h, a, b) && !Smaller(h, b, a)
  }

  /** On the first key that separates the rows, `a` is after `b` in the key's direction. */
  ghost predicate AfterAt(h: Host, dirs: seq<bool>, a: seq<Value>, b: seq<Value>, k: nat) {
    && k < |dirs| && k < |a| && k < |b|
    && (forall m :: 0 <= m < k ==> Level(h, a[m], b[m]))
    && if dirs[k] then Smaller(h, b[k], a[k]) else Smaller(h, a[k], b[k])
  }

  ghost predicate RanksAfter(h: Host, dirs: seq<bool>, a: seq<Value>, b: seq<Value>) {
    exists k :: AfterAt(h, dirs, a, b, k)
  }

  lemma DirectedIs(h: Host, ascending: bool, a: Value, b: Value)
    ensures DirectedCmp(h, ascending, a, b).Equal? <==> Level(h, a, b)
    ensures DirectedCmp(h, ascending, a, b).Greater? <==> if ascending then Smaller(h, b, a) else Smaller(h, a, b)
  {
    hide TryCmp, Smaller;
    TryCmpExactly(h, a, b);
  }

  /** The comparator of key lists: the first key that separates them decides, each key in its own direction. */
  lemma {:induction false} CompareKeysIs(h: Host, dirs: seq<bool>, a: seq<Value>, b: seq<Value>)
    ensures CompareKeys(h, dirs, a, b).Greater? <==> RanksAfter(h, dirs, a, b)
    decreases |dirs|
  {
    hide DirectedCmp, Smaller, Level;
    if dirs != [] && a != [] && b != [] {
      DirectedIs(h, dirs[0], a[0], b[0]);
      CompareKeysIs(h, dirs[1..], a[1..], b[1..]);
      if DirectedCmp(h, dirs[0], a[0], b[0]).Greater? {
        assert AfterAt(h, dirs, a, b, 0);
      }
      forall k: nat
        ensures Level(h, a[0], b[0]) ==> (AfterAt(h, dirs[1..], a[1..], b[1..], k) <==> AfterAt(h, dirs, a, b, k + 1))
      {
        AfterAtTail(h, dirs, a, b, k);
      }
      if RanksAfter(h, dirs, a, b) {
        var k: nat :| AfterAt(h, dirs, a, b, k);
        if k > 0 {
          assert Level(h, a[0], b[0]);
          assert AfterAt(h, dirs[1..], a[1..], b[1..], k - 1) <==> AfterAt(h, dirs, a, b, k - 1 + 1);
        }
      }
    }
  }

  lemma AfterAtTail(h: Host, dirs: seq<bool>, a: seq<Value>, b: seq<Value>, k: nat)
    requires dirs != [] && a != [] && b != []
    ensures Level(h, a[0], b[0]) ==> (AfterAt(h, dirs[1..], a[1..], b[1..], k) <==> AfterAt(h, dirs, a, b, k + 1))
  {
    hide Smaller, Level;
    if Level(h, a[0], b[0]) {
      if AfterAt(h, dirs[1..], a[1..], b[1..], k) {
        forall m | 0 <= m < k + 1
          ensures Level(h, a[m], b[m])
        {
          assert m > 0 ==> a[1..][m - 1] == a[m] && b[1..][m - 1] == b[m];
        }
      }
      if AfterAt(h, dirs, a, b, k + 1) {
        assert forall m :: 0 <= m < k ==> a[1..][m] == a[m + 1] && b[1..][m] == b[m + 1];
      }
    }
  }

  /** The keys of a row are the values of the ORDER BY expressions, in order. */
  lemma {:induction false} RowKeysAre(h: Host, order: seq<SortExpr>, row: Record, schema: Schema)
    requires RowKeys(h, order, row, schema).Ok?
    ensures |RowKeys(h, order, row, schema).value| == |order|
    ensures forall k :: 0 <= k < |order| ==>
      Eval(h, order[k].expr, row, schema) == Ok(RowKeys(h, order, row, schema).value[k])
  {
    hide Eval;
    if order != [] {
      RowKeysAre(h, order[1..], row, schema);
      var rest := RowKeys(h, order[1..], row, schema).value;
      assert forall k :: 1 <= k < |order| ==> order[k] == order[1..][k - 1];
      assert RowKeys(h, order, row, schema).value == [Eval(h, order[0].expr, row, schema).value] + rest;
    }
  }

  function ValueOr(r: Result<Value>): Value {
    if r.Ok? then r.value else Null
  }

  /** The row's value of an ORDER BY expression. */
  function KeyValue(h: Host, e: Expr, row: Record, schema: Schema): Value {
    ValueOr(Eval(h, e, row, schema))
  }

  /** On the first ORDER BY expression that separates the rows, `a` is after `b` in its direction. */
  ghost predicate RowAfterAt(h: Host, order: seq<SortExpr>, schema: Schema, a: Record, b: Record, k: nat) {
    && k < |order|
    && (forall m :: 0 <= m < k ==>
          Level(h, KeyValue(h, order[m].expr, a, schema), KeyValue(h, order[m].expr, b, schema)))
    && var x, y := KeyValue(h, order[k].expr, a, schema), KeyValue(h, order[k].expr, b, schema);
       if order[k].ascending then Smaller(h, y, x) else Smaller(h, x, y)
  }

  ghost predicate RowRanksAfter(h: Host, order: seq<SortExpr>, schema: Schema, a: Record, b: Record) {
    exists k :: RowAfterAt(h, order, schema, a, b, k)
  }

  /** With one ORDER BY expression: by its values alone. */
  lemma OneExpressionRanks(h: Host, e: Expr, ascending: bool, schema: Schema, a: Record, b: Record)
    ensures var x, y := KeyValue(h, e, a, schema), KeyValue(h, e, b, schema);
            RowRanksAfter(h, [SortExpr(e, ascending)], schema, a, b)
            <==> if ascending then Smaller(h, y, x) else Smaller(h, x, y)
  {
    hide Smaller, KeyValue;
    var x, y := KeyValue(h, e, a, schema), KeyValue(h, e, b, schema);
    if if ascending then Smaller(h, y, x) else Smaller(h, x, y) {
      assert RowAfterAt(h, [SortExpr(e, ascending)], schema, a, b, 0);
    }
  }

  /** A row sorts after another exactly when it ranks after it. */
  lemma SortsAfterExactly(h: Host, order: seq<SortExpr>, schema: Schema, a: Record, b: Record)
    requires RowKeys(h, order, a, schema).Ok? && RowKeys(h, order, b, schema).Ok?
    ensures SortsAfter(h, order, schema, a, b) <==> RowRanksAfter(h, order, schema, a, b)
  {
    hide CompareKeys, RowKeys, Smaller, Level;
    var x, y := RowKeys(h, order, a, schema).value, RowKeys(h, order, b, schema).value;
    CompareKeysIs(h, Directions(order), x, y);
    RowKeysAre(h, order, a, schema);
    RowKeysAre(h, order, b, schema);
    forall k: nat
      ensures AfterAt(h, Directions(order), x, y, k) <==> RowAfterAt(h, order, schema, a, b, k)
    {
      KeysAreValues(h, order, schema, a, b, x, y, k);
    }
  }

  lemma KeysAreValues(h: Host, order: seq<SortExpr>, schema: Schema, a: Record, b: Record, x: seq<Value>, y: seq<Value>,
                      k: nat)
    requires |x| == |order| == |y|
    requires forall m :: 0 <= m < |order| ==> Eval(h, order[m].expr, a, schema) == Ok(x[m])
    requires forall m :: 0 <= m < |order| ==> Eval(h, order[m].expr, b, schema) == Ok(y[m])
    ensures AfterAt(h, Directions(order), x, y, k) <==> RowAfterAt(h, order, schema, a, b, k)
  {
    hide Eval, Smaller, Level;
    assert forall m :: 0 <= m < |order| ==> KeyValue(h, order[m].expr, a, schema) == x[m];
    assert forall m :: 0 <= m < |order| ==> KeyValue(h, order[m].expr, b, schema) == y[m];
  }

  // ----- MIN and MAX -----

  /** MIN: a non-null argument that has an order with every non-null one, none of which is smaller. */
  lemma LeastIs(h: Host, vs: seq<Value>, m: Value)
    ensures IsExtreme(h, vs, Some(m), Greater) <==>
      m in vs && !m.Null?
      && forall i :: 0 <= i < |vs| && !vs[i].Null? ==> Ordered(h, m, vs[i]) && !Smaller(h, vs[i], m)
  {
    hide TryCmp, Smaller, Ordered;
    forall i | 0 <= i < |vs|
      ensures TryCmp(h, m, vs[i]).Ok? <==> Ordered(h, m, vs[i])
      ensures TryCmp(h, m, vs[i]) == Ok(Greater) <==> Smaller(h, vs[i], m)
    {
      TryCmpExactly(h, m, vs[i]);
    }
  }

  lemma GreatestIs(h: Host, vs: seq<Value>, m: Value)
    ensures IsExtreme(h, vs, Some(m), Less) <==>
      m in vs && !m.Null?
      && forall i :: 0 <= i < |vs| && !vs[i].Null? ==> Ordered(h, m, vs[i]) && !Smaller(h, m, vs[i])
  {
    hide TryCmp, Smaller, Ordered;
    forall i | 0 <= i < |vs|
      ensures TryCmp(h, m, vs[i]).Ok? <==> Ordered(h, m, vs[i])
      ensures TryCmp(h, m, vs[i]) == Ok(Less) <==> Smaller(h, m, vs[i])
    {
      TryCmpExactly(h, m, vs[i]);
    }
  }

  /** On a column of one type without NaN the finished MIN and MAX are its smallest and its largest value, or null
      if it has none. */
  lemma MinMaxOfColumn(h: Host, k: Kind, vs: seq<Value>)
    requires AllOfKind(vs, k)
    ensures var m := Finish(h, Fold(h, Min, vs));
            && (m.Null? <==> forall i :: 0 <= i < |vs| ==> vs[i].Null?)
            && (!m.Null? ==> m in vs && forall i :: 0 <= i < |vs| && !vs[i].Null? ==> !Smaller(h, vs[i], m))
    ensures var m := Finish(h, Fold(h, Max, vs));
            && (m.Null? <==> forall i :: 0 <= i < |vs| ==> vs[i].Null?)
            && (!m.Null? ==> m in vs && forall i :: 0 <= i < |vs| && !vs[i].Null? ==> !Smaller(h, m, vs[i]))
  {
    hide Smaller, Ordered, AllOfKind, TryCmp;
    ExtremesOfOneKind(h, k, vs);
    var least, greatest := Fold(h, Min, vs).least, Fold(h, Max, vs).greatest;
    if least.Some? {
      LeastIs(h, vs, least.value);
    }
    if greatest.Some? {
      GreatestIs(h, vs, greatest.value);
    }
  }
}
