/** When MIN and MAX are extremes (crates/rspark-exec/src/operators.rs:416-439,
    crates/rspark-core/src/value.rs:87-128): arguments may be of mixed types, some pairs of types
    compare and some do not, and an argument that does not compare leaves the accumulator alone. */
module Extremes {
  import opened Results
  import opened Values
  import opened Orders
  import opened Expressions
  import opened Sorting
  import opened Aggregating

  /** What MIN (`worse` is Greater) and MAX (`worse` is Less) should give: nothing exactly when every
      argument is null, otherwise a non-null argument that compares with every non-null argument and
      is worse than none. */
  ghost predicate IsExtreme(h: Host, vs: seq<Value>, slot: Option<Value>, worse: Ordering) {
    match slot
    case None => forall i :: 0 <= i < |vs| ==> vs[i].Null?
    case Some(m) =>
      && m in vs && !m.Null?
      && forall i :: 0 <= i < |vs| && !vs[i].Null? ==> TryCmp(h, m, vs[i]).Ok? && TryCmp(h, m, vs[i]).value != worse
  }

  // ----- the accumulators as one scan -----

  ghost function Best(h: Host, vs: seq<Value>, worse: Ordering): Option<Value> {
    if vs == [] then None
    else
      var n := |vs| - 1;
      var slot := Best(h, vs[..n], worse);
      if vs[n].Null? then slot
      else if slot.None? || TryCmp(h, slot.value, vs[n]) == Ok(worse) then Some(vs[n])
      else slot
  }

  lemma {:induction false} MinIsBest(h: Host, vs: seq<Value>)
    ensures Fold(h, Min, vs) == MinAcc(Best(h, vs, Greater))
  {
    if vs != [] {
      MinIsBest(h, vs[..|vs| - 1]);
    }
  }

  lemma {:induction false} MaxIsBest(h: Host, vs: seq<Value>)
    ensures Fold(h, Max, vs) == MaxAcc(Best(h, vs, Less))
  {
    if vs != [] {
      MaxIsBest(h, vs[..|vs| - 1]);
    }
  }

  lemma {:induction false} BestIsMember(h: Host, vs: seq<Value>, worse: Ordering)
    ensures match Best(h, vs, worse)
            case None => forall i :: 0 <= i < |vs| ==> vs[i].Null?
            case Some(m) => m in vs && !m.Null?
  {
    hide TryCmp;
    if vs != [] {
      var n := |vs| - 1;
      BestIsMember(h, vs[..n], worse);
      assert vs == vs[..n] + [vs[n]];
    }
  }

  // ----- the comparator on any two values -----

  /** All non-null arguments compare with each other, and with themselves: no NaN among them. */
  ghost predicate AllCompare(h: Host, vs: seq<Value>) {
    forall i, j :: 0 <= i < |vs| && 0 <= j < |vs| && !vs[i].Null? && !vs[j].Null? ==> TryCmp(h, vs[i], vs[j]).Ok?
  }

  /** Two arguments that compare with a third one compare with each other. */
  ghost predicate NoDetours(h: Host, vs: seq<Value>) {
    forall i, j, k ::
      0 <= i < |vs| && 0 <= j < |vs| && 0 <= k < |vs| && !vs[i].Null? && !vs[j].Null? && !vs[k].Null? ==>
        TryCmp(h, vs[i], vs[j]).Ok? && TryCmp(h, vs[j], vs[k]).Ok? ==> TryCmp(h, vs[i], vs[k]).Ok?
  }

  /** Not greater: less or equal. */
  predicate AtMost(h: Host, a: Value, b: Value) {
    TryCmp(h, a, b).Ok? && !TryCmp(h, a, b).value.Greater?
  }

  /** A strict step followed or preceded by a weak one is at least a weak one. Rounding can make two
      weak steps lead backwards, so no more than this can be asked across types. */
  ghost predicate Chains(h: Host, a: Value, b: Value, c: Value) {
    && (TryCmp(h, a, b) == Ok(Less) && AtMost(h, b, c) && TryCmp(h, a, c).Ok? ==> AtMost(h, a, c))
    && (AtMost(h, a, b) && TryCmp(h, b, c) == Ok(Less) && TryCmp(h, a, c).Ok? ==> AtMost(h, a, c))
  }

  ghost predicate Consistent(h: Host, vs: seq<Value>) {
    forall i, j, k ::
      0 <= i < |vs| && 0 <= j < |vs| && 0 <= k < |vs| && !vs[i].Null? && !vs[j].Null? && !vs[k].Null? ==>
        Chains(h, vs[i], vs[j], vs[k])
  }

  // ----- hosts and lists that are consistent -----

  predicate FloatAtMost(a: Float, b: Float) {
    CompareFloats(a, b).Some? && !CompareFloats(a, b).value.Greater?
  }

  /** Conversions to Float64 are monotone, make no NaN of a number and keep NaN, as IEEE conversions do. */
  ghost predicate Monotone(h: Host) {
    && (forall x, y :: x <= y ==> FloatAtMost(h.i64ToF64(x), h.i64ToF64(y)))
    && (forall x, y :: FloatAtMost(x, y) ==> FloatAtMost(h.f32ToF64(x), h.f32ToF64(y)))
    && h.f32ToF64(NaN).NaN?
  }

  lemma FloatChains(a: Float, b: Float, c: Float)
    ensures FloatAtMost(a, b) && FloatAtMost(b, c) ==> FloatAtMost(a, c)
    ensures FloatAtMost(a, b) && FloatAtMost(b, c) && (!FloatAtMost(b, a) || !FloatAtMost(c, b)) ==> !FloatAtMost(c, a)
    ensures CompareFloats(a, b).Some? ==> FloatAtMost(a, b) || FloatAtMost(b, a)
  {
  }

  /** The type whose order compares two values, when it is not the values' own. */
  function AsF64(h: Host, v: Value): Float {
    match v
    case Int32(i) => h.i64ToF64(i)
    case Int64(l) => h.i64ToF64(l)
    case Float32(f) => h.f32ToF64(f)
    case Float64(d) => d
    case _ => NaN
  }

  predicate IsInteger(v: Value) {
    v.Int32? || v.Int64?
  }

  predicate IsNumber(v: Value) {
    IsInteger(v) || v.Float32? || v.Float64?
  }

  /** Whenever numbers compare, the comparison and the one of their Float64 images do not disagree. */
  lemma ImagesFollow(h: Host, a: Value, b: Value)
    requires Monotone(h) && IsNumber(a) && IsNumber(b) && TryCmp(h, a, b).Ok?
    ensures AtMost(h, a, b) ==> FloatAtMost(AsF64(h, a), AsF64(h, b))
    ensures TryCmp(h, a, b).value.Greater? ==> FloatAtMost(AsF64(h, b), AsF64(h, a))
    ensures a.Float64? || b.Float64? ==> (AtMost(h, a, b) <==> FloatAtMost(AsF64(h, a), AsF64(h, b)))
  {
  }

  lemma NumbersChain(h: Host, a: Value, b: Value, c: Value)
    requires Monotone(h) && IsNumber(a) && IsNumber(b) && IsNumber(c)
    requires TryCmp(h, a, b).Ok? && TryCmp(h, b, c).Ok? && TryCmp(h, a, c).Ok?
    ensures Chains(h, a, b, c)
  {
    if a.Float64? || b.Float64? || c.Float64? {
      TryCmpFlips(h, a, b);
      TryCmpFlips(h, b, c);
      TryCmpFlips(h, a, c);
      ImagesFollow(h, a, b);
      ImagesFollow(h, b, c);
      ImagesFollow(h, a, c);
      ImagesFollow(h, b, a);
      ImagesFollow(h, c, b);
      hide Monotone;
      FloatChains(AsF64(h, a), AsF64(h, b), AsF64(h, c));
    }
  }

  lemma StringsChain(h: Host, a: Value, b: Value, c: Value)
    requires a.String? && b.String? && c.String?
    ensures Chains(h, a, b, c)
  {
    CompareStringsEqual(a.s, b.s);
    CompareStringsEqual(b.s, c.s);
    if AtMost(h, a, b) && AtMost(h, b, c) {
      CompareStringsTransitive(a.s, b.s, c.s);
    }
  }

  /** With monotone conversions every list is consistent. */
  lemma MonotoneIsConsistent(h: Host, vs: seq<Value>)
    requires Monotone(h)
    ensures Consistent(h, vs)
  {
    forall i, j, k | 0 <= i < |vs| && 0 <= j < |vs| && 0 <= k < |vs| && !vs[i].Null? && !vs[j].Null? && !vs[k].Null?
      ensures Chains(h, vs[i], vs[j], vs[k])
    {
      var a, b, c := vs[i], vs[j], vs[k];
      if TryCmp(h, a, b).Ok? && TryCmp(h, b, c).Ok? && TryCmp(h, a, c).Ok? {
        if IsNumber(a) {
          NumbersChain(h, a, b, c);
        } else if a.String? {
          StringsChain(h, a, b, c);
        }
      }
    }
  }

  /** Only a list that has an integer, a Float32 and a Float64 has detours. */
  lemma DetoursNeedThreeTypes(h: Host, vs: seq<Value>)
    requires Monotone(h)
    requires || (forall i :: 0 <= i < |vs| ==> !IsInteger(vs[i]))
             || (forall i :: 0 <= i < |vs| ==> !vs[i].Float32?)
             || (forall i :: 0 <= i < |vs| ==> !vs[i].Float64?)
    ensures NoDetours(h, vs)
  {
    forall i, j, k | 0 <= i < |vs| && 0 <= j < |vs| && 0 <= k < |vs| && !vs[i].Null? && !vs[j].Null? && !vs[k].Null?
                  && TryCmp(h, vs[i], vs[j]).Ok? && TryCmp(h, vs[j], vs[k]).Ok?
      ensures TryCmp(h, vs[i], vs[k]).Ok?
    {
      IntegersHaveImages(h, vs[i]);
      IntegersHaveImages(h, vs[j]);
      IntegersHaveImages(h, vs[k]);
    }
  }

  lemma IntegersHaveImages(h: Host, v: Value)
    requires Monotone(h)
    ensures IsInteger(v) ==> !AsF64(h, v).NaN?
    ensures v.Float32? ==> (v.f.NaN? <==> AsF64(h, v).NaN?)
  {
    match v
    case Int32(x) => assert FloatAtMost(h.i64ToF64(x), h.i64ToF64(x));
    case Int64(x) => assert FloatAtMost(h.i64ToF64(x), h.i64ToF64(x));
    case Float32(f) => if !f.NaN? { assert FloatAtMost(f, f); }
    case _ =>
  }

  /** Arguments of different types never compare. */
  ghost predicate TypesApart(h: Host, vs: seq<Value>) {
    forall i, j :: 0 <= i < |vs| && 0 <= j < |vs| && !vs[i].Null? && !vs[j].Null? ==>
      DataTypeName(vs[i]) == DataTypeName(vs[j]) || TryCmp(h, vs[i], vs[j]).Err?
  }

  /** Every argument is null or of the kind; NaN is of none. */
  ghost predicate AllOfKind(vs: seq<Value>, k: Kind) {
    forall i :: 0 <= i < |vs| ==> OfKind(vs[i], k)
  }

  function KindOf(v: Value): Kind {
    match v
    case Boolean(_) => BooleanKind
    case Int32(_) => Int32Kind
    case Int64(_) => Int64Kind
    case Float32(_) => Float32Kind
    case Float64(_) => Float64Kind
    case _ => StringKind
  }

  lemma ComparedAreOfOneKind(h: Host, a: Value, b: Value)
    requires !a.Null? && !b.Null? && TryCmp(h, a, b).Ok? && DataTypeName(a) == DataTypeName(b)
    ensures OfKind(a, KindOf(a)) && OfKind(b, KindOf(a)) && KindOf(b) == KindOf(a)
  {
    TypeNamesDiffer(a, b);
  }

  lemma TypeNamesDiffer(a: Value, b: Value)
    requires DataTypeName(a) == DataTypeName(b)
    ensures a.Null? == b.Null? && a.Boolean? == b.Boolean? && a.Int32? == b.Int32? && a.Int64? == b.Int64?
    ensures a.Float32? == b.Float32? && a.Float64? == b.Float64? && a.String? == b.String?
  {
    assert |"null"| == 4 && |"boolean"| == 7 && |"int"| == 3 && |"bigint"| == 6 && |"float"| == 5;
    assert |"double"| == 6 && |"string"| == 6;
    assert "bigint"[0] == 'b' && "double"[0] == 'd' && "string"[0] == 's';
  }

  lemma KindChains(h: Host, k: Kind, a: Value, b: Value, c: Value)
    requires OfKind(a, k) && OfKind(b, k) && OfKind(c, k)
    ensures Chains(h, a, b, c)
  {
    TryCmpReverses(h, k, a, b);
    TryCmpReverses(h, k, b, c);
    TryCmpReverses(h, k, a, c);
    if TryCmp(h, a, b) == Ok(Less) && TryCmp(h, b, c) == Ok(Less) {
      TryCmpTransitive(h, k, a, b, c);
    }
  }

  /** With types apart a list is consistent and free of detours on every host. */
  lemma TypesApartIsConsistent(h: Host, vs: seq<Value>)
    requires TypesApart(h, vs)
    ensures Consistent(h, vs) && NoDetours(h, vs)
  {
    hide TryCmp, DataTypeName;
    forall i, j, k | 0 <= i < |vs| && 0 <= j < |vs| && 0 <= k < |vs| && !vs[i].Null? && !vs[j].Null? && !vs[k].Null?
      ensures Chains(h, vs[i], vs[j], vs[k])
      ensures TryCmp(h, vs[i], vs[j]).Ok? && TryCmp(h, vs[j], vs[k]).Ok? ==> TryCmp(h, vs[i], vs[k]).Ok?
    {
      var a, b, c := vs[i], vs[j], vs[k];
      if TryCmp(h, a, b).Ok? && TryCmp(h, b, c).Ok? {
        ComparedAreOfOneKind(h, a, b);
        ComparedAreOfOneKind(h, b, c);
        TryCmpReverses(h, KindOf(a), a, c);
        KindChains(h, KindOf(a), a, b, c);
      }
    }
  }

  // ----- the exact condition -----

  /** If all arguments compare, the scan finds an extreme. */
  lemma {:induction false} BestIsExtreme(h: Host, vs: seq<Value>, worse: Ordering)
    requires worse.Less? || worse.Greater?
    requires AllCompare(h, vs) && Consistent(h, vs)
    ensures IsExtreme(h, vs, Best(h, vs, worse), worse)
  {
    hide TryCmp;
    if vs != [] {
      var n := |vs| - 1;
      var init, v := vs[..n], vs[n];
      assert forall i :: 0 <= i < n ==> init[i] == vs[i];
      BestIsExtreme(h, init, worse);
      if !v.Null? {
        TryCmpFlips(h, v, v);
        var slot := Best(h, init, worse);
        if slot.Some? && TryCmp(h, slot.value, v) == Ok(worse) {
          ReplacingKeepsExtreme(h, vs, slot.value, worse);
        }
      }
    }
  }

  lemma ReplacingKeepsExtreme(h: Host, vs: seq<Value>, m: Value, worse: Ordering)
    requires worse.Less? || worse.Greater?
    requires vs != [] && AllCompare(h, vs) && Consistent(h, vs) && !vs[|vs| - 1].Null?
    requires IsExtreme(h, vs[..|vs| - 1], Some(m), worse) && TryCmp(h, m, vs[|vs| - 1]) == Ok(worse)
    ensures IsExtreme(h, vs, Some(vs[|vs| - 1]), worse)
  {
    hide TryCmp;
    var n := |vs| - 1;
    var v := vs[n];
    var j :| 0 <= j < n && vs[..n][j] == m;
    assert vs[j] == m;
    TryCmpFlips(h, m, v);
    TryCmpFlips(h, v, v);
    forall i | 0 <= i < |vs| && !vs[i].Null?
      ensures TryCmp(h, v, vs[i]).Ok? && TryCmp(h, v, vs[i]).value != worse
    {
      if i < n {
        assert vs[..n][i] == vs[i];
        TryCmpFlips(h, m, vs[i]);
        TryCmpFlips(h, v, vs[i]);
        assert Chains(h, vs[n], vs[j], vs[i]);
        assert Chains(h, vs[i], vs[j], vs[n]);
      }
    }
  }

  /** On consistent lists without detours the scan gives an extreme exactly when all non-null arguments
      compare with each other. */
  lemma BestExactly(h: Host, vs: seq<Value>, worse: Ordering)
    requires worse.Less? || worse.Greater?
    requires Consistent(h, vs) && NoDetours(h, vs)
    ensures IsExtreme(h, vs, Best(h, vs, worse), worse) <==> AllCompare(h, vs)
  {
    hide TryCmp;
    if AllCompare(h, vs) {
      BestIsExtreme(h, vs, worse);
    }
    if IsExtreme(h, vs, Best(h, vs, worse), worse) {
      match Best(h, vs, worse)
      case None =>
      case Some(m) =>
        var p :| 0 <= p < |vs| && vs[p] == m;
        forall i, j | 0 <= i < |vs| && 0 <= j < |vs| && !vs[i].Null? && !vs[j].Null?
          ensures TryCmp(h, vs[i], vs[j]).Ok?
        {
          TryCmpFlips(h, vs[p], vs[i]);
        }
    }
  }

  /** MIN is a least argument exactly when all non-null arguments compare with each other: for every
      host with monotone conversions, and every list without detours. */
  lemma MinExactly(h: Host, vs: seq<Value>)
    requires Monotone(h) && NoDetours(h, vs)
    ensures Fold(h, Min, vs).MinAcc?
    ensures IsExtreme(h, vs, Fold(h, Min, vs).least, Greater) <==> AllCompare(h, vs)
  {
    MonotoneIsConsistent(h, vs);
    MinIsBest(h, vs);
    BestExactly(h, vs, Greater);
  }

  lemma MaxExactly(h: Host, vs: seq<Value>)
    requires Monotone(h) && NoDetours(h, vs)
    ensures Fold(h, Max, vs).MaxAcc?
    ensures IsExtreme(h, vs, Fold(h, Max, vs).greatest, Less) <==> AllCompare(h, vs)
  {
    MonotoneIsConsistent(h, vs);
    MaxIsBest(h, vs);
    BestExactly(h, vs, Less);
  }

  /** With types apart "all compare" is "all of one type, none NaN". */
  lemma AllCompareIffOneKind(h: Host, vs: seq<Value>)
    requires TypesApart(h, vs)
    ensures AllCompare(h, vs) <==> exists k :: AllOfKind(vs, k)
  {
    hide TryCmp, DataTypeName;
    if AllCompare(h, vs) {
      if p :| 0 <= p < |vs| && !vs[p].Null? {
        forall i | 0 <= i < |vs|
          ensures OfKind(vs[i], KindOf(vs[p]))
        {
          if !vs[i].Null? {
            assert TryCmp(h, vs[p], vs[i]).Ok?;
            ComparedAreOfOneKind(h, vs[p], vs[i]);
          }
        }
        assert AllOfKind(vs, KindOf(vs[p]));
      } else {
        assert AllOfKind(vs, BooleanKind);
      }
    }
    if k :| AllOfKind(vs, k) {
      forall i, j | 0 <= i < |vs| && 0 <= j < |vs| && !vs[i].Null? && !vs[j].Null?
        ensures TryCmp(h, vs[i], vs[j]).Ok?
      {
        TryCmpReverses(h, k, vs[i], vs[j]);
      }
    }
  }

  /** On every host: where types do not compare, MIN and MAX are extremes exactly when the non-null
      arguments are of one type and none is NaN. */
  lemma ExtremesExactly(h: Host, vs: seq<Value>)
    requires TypesApart(h, vs)
    ensures Fold(h, Min, vs).MinAcc? && Fold(h, Max, vs).MaxAcc?
    ensures IsExtreme(h, vs, Fold(h, Min, vs).least, Greater) <==>
            exists k :: AllOfKind(vs, k)
    ensures IsExtreme(h, vs, Fold(h, Max, vs).greatest, Less) <==>
            exists k :: AllOfKind(vs, k)
  {
    hide TryCmp, DataTypeName, AllOfKind, IsExtreme;
    TypesApartIsConsistent(h, vs);
    MinIsBest(h, vs);
    MaxIsBest(h, vs);
    BestExactly(h, vs, Greater);
    BestExactly(h, vs, Less);
    AllCompareIffOneKind(h, vs);
  }

  /** In particular they are on arguments of one type without NaN. */
  lemma ExtremesOfOneKind(h: Host, k: Kind, vs: seq<Value>)
    requires AllOfKind(vs, k)
    ensures Fold(h, Min, vs).MinAcc? && IsExtreme(h, vs, Fold(h, Min, vs).least, Greater)
    ensures Fold(h, Max, vs).MaxAcc? && IsExtreme(h, vs, Fold(h, Max, vs).greatest, Less)
  {
    hide TryCmp, IsExtreme;
    ExtremesExactly(h, vs);
  }

  // ----- witnesses -----

  /** Mixed types break MIN: an incomparable first argument is never replaced. */
  lemma MinNeedsOneKind(h: Host)
    ensures var vs := [String("x"), Int64(2), Int64(1)];
            Fold(h, Min, vs) == MinAcc(Some(String("x"))) && !IsExtreme(h, vs, Some(String("x")), Greater)
  {
    var vs := [String("x"), Int64(2), Int64(1)];
    assert vs[..2] == [String("x"), Int64(2)] && vs[..2][..1] == [String("x")] && vs[..1][..0] == [];
    assert Fold(h, Min, [String("x")]) == MinAcc(Some(String("x")));
    assert Fold(h, Min, vs[..2]) == MinAcc(Some(String("x")));
    assert TryCmp(h, String("x"), vs[1]).Err?;
  }

  lemma BestOfThree(h: Host, a: Value, b: Value, c: Value, worse: Ordering)
    requires !a.Null? && !b.Null? && !c.Null?
    ensures var ab := if TryCmp(h, a, b) == Ok(worse) then b else a;
            Best(h, [a, b, c], worse) == Some(if TryCmp(h, ab, c) == Ok(worse) then c else ab)
  {
    hide TryCmp;
    var vs := [a, b, c];
    assert vs[..2] == [a, b] && [a, b][..1] == [a] && [a][..0] == [];
    assert Best(h, [a], worse) == Some(a);
    assert Best(h, [a, b], worse) == Some(if TryCmp(h, a, b) == Ok(worse) then b else a);
  }

  /** With an integer, a Float32 and a Float64 the outcome depends on the order of the arguments, so no
      condition on the arguments alone decides it. */
  lemma ExtremeDependsOnOrder(h: Host)
    requires h.i64ToF64(1) == Num(1.0) && h.f32ToF64(Num(3.0)) == Num(3.0)
    ensures var vs := [Float64(Num(1.0)), Int32(1), Float32(Num(3.0))];
            Fold(h, Min, vs).MinAcc? && IsExtreme(h, vs, Fold(h, Min, vs).least, Greater)
    ensures var vs := [Int32(1), Float64(Num(1.0)), Float32(Num(3.0))];
            Fold(h, Min, vs).MinAcc? && !IsExtreme(h, vs, Fold(h, Min, vs).least, Greater)
  {
    var d, i, f := Float64(Num(1.0)), Int32(1), Float32(Num(3.0));
    MinIsBest(h, [d, i, f]);
    MinIsBest(h, [i, d, f]);
    BestOfThree(h, d, i, f, Greater);
    BestOfThree(h, i, d, f, Greater);
    assert TryCmp(h, d, i) == Ok(Equal) && TryCmp(h, i, d) == Ok(Equal) && TryCmp(h, d, f) == Ok(Less);
    assert TryCmp(h, d, d) == Ok(Equal);
    assert TryCmp(h, i, [i, d, f][2]).Err?;
    assert d in [d, i, f];
  }
}
