/** What COUNT, SUM and AVG compute (crates/rspark-exec/src/operators.rs:383-461), against totals over the
    argument list that mention no accumulator. */
module Sums {
  import opened Results
  import opened Values
  import opened Expressions
  import opened Sorting
  import opened Aggregating

  /** The arguments that cast to a number, as numbers, in order. */
  ghost function Numbers(h: Host, vs: seq<Value>): seq<Float> {
    if vs == [] then []
    else
      var n := |vs| - 1;
      Numbers(h, vs[..n]) + (match CastToF64(h, vs[n]) case Some(x) => [x] case None => [])
  }

  /** Added up from the left, from zero, with the host's addition. */
  ghost function Total(h: Host, xs: seq<Float>): Float {
    if xs == [] then Num(0.0) else h.add(Total(h, xs[..|xs| - 1]), xs[|xs| - 1])
  }

  lemma {:induction false} SumIsTotal(h: Host, vs: seq<Value>)
    ensures Fold(h, Sum, vs) == SumAcc(Total(h, Numbers(h, vs)))
    ensures Finish(h, Fold(h, Sum, vs)) == Float64(Total(h, Numbers(h, vs)))
  {
    hide CastToF64;
    if vs != [] {
      var n := |vs| - 1;
      SumIsTotal(h, vs[..n]);
      var before := Numbers(h, vs[..n]);
      if CastToF64(h, vs[n]).Some? {
        assert (before + [CastToF64(h, vs[n]).value])[..|before|] == before;
      } else {
        assert Numbers(h, vs) == before;
      }
    }
  }

  lemma {:induction false} AvgFolds(h: Host, vs: seq<Value>)
    ensures Fold(h, Avg, vs) == AvgAcc(Total(h, Numbers(h, vs)), |Numbers(h, vs)|)
  {
    hide CastToF64;
    if vs != [] {
      var n := |vs| - 1;
      AvgFolds(h, vs[..n]);
      var before := Numbers(h, vs[..n]);
      if CastToF64(h, vs[n]).Some? {
        assert (before + [CastToF64(h, vs[n]).value])[..|before|] == before;
      } else {
        assert Numbers(h, vs) == before;
      }
    }
  }

  /** AVG is null exactly when no argument casts; otherwise the total divided by the number of casting arguments. */
  lemma AvgIsQuotient(h: Host, vs: seq<Value>)
    ensures Finish(h, Fold(h, Avg, vs)).Null? <==> forall i :: 0 <= i < |vs| ==> CastToF64(h, vs[i]).None?
    ensures Numbers(h, vs) != [] ==>
      Finish(h, Fold(h, Avg, vs)) == Float64(h.div(Total(h, Numbers(h, vs)), h.i64ToF64(|Numbers(h, vs)|)))
  {
    hide CastToF64;
    AvgFolds(h, vs);
    NoNumbers(h, vs);
  }

  lemma {:induction false} NoNumbers(h: Host, vs: seq<Value>)
    ensures Numbers(h, vs) == [] <==> forall i :: 0 <= i < |vs| ==> CastToF64(h, vs[i]).None?
  {
    hide CastToF64;
    if vs != [] {
      NoNumbers(h, vs[..|vs| - 1]);
    }
  }

  /** An argument that does not cast changes neither SUM nor AVG. */
  lemma NonNumbersAreIgnored(h: Host, vs: seq<Value>, v: Value)
    requires CastToF64(h, v).None?
    ensures Fold(h, Sum, vs + [v]) == Fold(h, Sum, vs) && Fold(h, Avg, vs + [v]) == Fold(h, Avg, vs)
  {
    hide CastToF64;
    assert (vs + [v])[..|vs|] == vs;
    SumIsTotal(h, vs);
    AvgFolds(h, vs);
  }

  // ----- hosts whose arithmetic is exact -----

  /** Addition, division and integer conversion without rounding. */
  ghost predicate Exact(h: Host) {
    && (forall x, y :: h.add(Num(x), Num(y)) == Num(x + y))
    && (forall x, y :: y != 0.0 ==> h.div(Num(x), Num(y)) == Num(x / y))
    && (forall n :: h.i64ToF64(n) == Num(n as real))
  }

  ghost predicate AllFinite(xs: seq<Float>) {
    forall i :: 0 <= i < |xs| ==> xs[i].Num?
  }

  /** The mathematical sum, from the right. */
  ghost function RealSum(xs: seq<Float>): real
    requires AllFinite(xs)
  {
    if xs == [] then 0.0 else xs[0].value + RealSum(xs[1..])
  }

  lemma {:induction false} RealSumSnoc(xs: seq<Float>, x: Float)
    requires AllFinite(xs) && x.Num?
    ensures AllFinite(xs + [x]) && RealSum(xs + [x]) == RealSum(xs) + x.value
  {
    if xs == [] {
      assert [] + [x] == [x] && [x][1..] == [];
    } else {
      RealSumSnoc(xs[1..], x);
      assert (xs + [x])[1..] == xs[1..] + [x];
    }
  }

  lemma {:induction false} TotalIsRealSum(h: Host, xs: seq<Float>)
    requires Exact(h) && AllFinite(xs)
    ensures Total(h, xs) == Num(RealSum(xs))
  {
    hide Exact, RealSum;
    if xs == [] {
      NothingSums();
    } else {
      var n := |xs| - 1;
      TotalIsRealSum(h, xs[..n]);
      RealSumSnoc(xs[..n], xs[n]);
      assert xs == xs[..n] + [xs[n]];
      ExactAdd(h, RealSum(xs[..n]), xs[n].value);
    }
  }

  lemma ExactAdd(h: Host, x: real, y: real)
    requires Exact(h)
    ensures h.add(Num(x), Num(y)) == Num(x + y)
  {
  }

  /** On exact hosts SUM of finite numbers is their sum and AVG their mean. */
  lemma SumAndMean(h: Host, vs: seq<Value>)
    requires Exact(h) && AllFinite(Numbers(h, vs))
    ensures Finish(h, Fold(h, Sum, vs)) == Float64(Num(RealSum(Numbers(h, vs))))
    ensures Numbers(h, vs) != [] ==>
      Finish(h, Fold(h, Avg, vs)) == Float64(Num(RealSum(Numbers(h, vs)) / (|Numbers(h, vs)| as real)))
  {
    SumIsTotal(h, vs);
    AvgIsQuotient(h, vs);
    TotalIsRealSum(h, Numbers(h, vs));
  }

  function IntegerIn(v: Value): int {
    match v
    case Int32(i) => i
    case Int64(l) => l
    case _ => 0
  }

  /** The sum of the integers of a column. */
  ghost function IntegerSum(vs: seq<Value>): int {
    if vs == [] then 0 else IntegerIn(vs[0]) + IntegerSum(vs[1..])
  }

  lemma {:induction false} IntegerSumSnoc(vs: seq<Value>, v: Value)
    ensures IntegerSum(vs + [v]) == IntegerSum(vs) + IntegerIn(v)
  {
    hide IntegerIn;
    if vs == [] {
      assert [] + [v] == [v] && [v][1..] == [];
      assert IntegerSum([v]) == IntegerIn(v) + IntegerSum([]);
    } else {
      IntegerSumSnoc(vs[1..], v);
      assert (vs + [v])[1..] == vs[1..] + [v];
    }
  }

  lemma NothingSums()
    ensures RealSum([]) == 0.0 && IntegerSum([]) == 0
  {
  }

  lemma IntegerCast(h: Host, v: Value)
    requires Exact(h) && IsIntegerOrNull(v)
    ensures v.Null? ==> CastToF64(h, v) == None && IntegerIn(v) == 0
    ensures !v.Null? ==> CastToF64(h, v) == Some(Num(IntegerIn(v) as real))
  {
  }

  lemma SumAsReal(a: int, b: int)
    ensures (a + b) as real == a as real + b as real
  {
  }

  lemma {:induction false} IntegersAreNumbers(h: Host, vs: seq<Value>)
    requires Exact(h) && forall i :: 0 <= i < |vs| ==> IsIntegerOrNull(vs[i])
    ensures AllFinite(Numbers(h, vs)) && RealSum(Numbers(h, vs)) == IntegerSum(vs) as real
    ensures |Numbers(h, vs)| == NonNull(vs)
  {
    hide CastToF64, Exact, IsIntegerOrNull, RealSum, IntegerSum, IntegerIn, AllFinite;
    if vs == [] {
      NothingSums();
      AllFiniteEmpty();
    } else {
      var n := |vs| - 1;
      var before := Numbers(h, vs[..n]);
      IntegersAreNumbers(h, vs[..n]);
      assert vs == vs[..n] + [vs[n]];
      IntegerSumSnoc(vs[..n], vs[n]);
      IntegerCast(h, vs[n]);
      SumAsReal(IntegerSum(vs[..n]), IntegerIn(vs[n]));
      if vs[n].Null? {
        assert Numbers(h, vs) == before + [] == before;
      } else {
        RealSumSnoc(before, CastToF64(h, vs[n]).value);
        assert Numbers(h, vs) == before + [CastToF64(h, vs[n]).value];
      }
    }
  }

  lemma AllFiniteEmpty()
    ensures AllFinite([])
  {
  }

  /** On exact hosts SUM of an integer column with nulls is the sum of its integers, and AVG their mean, null if
      there are none. */
  lemma SumOfIntegers(h: Host, vs: seq<Value>)
    requires Exact(h) && forall i :: 0 <= i < |vs| ==> IsIntegerOrNull(vs[i])
    ensures Finish(h, Fold(h, Sum, vs)) == Float64(Num(IntegerSum(vs) as real))
    ensures NonNull(vs) == 0 ==> Finish(h, Fold(h, Avg, vs)) == Null
    ensures NonNull(vs) > 0 ==>
      Finish(h, Fold(h, Avg, vs)) == Float64(Num(IntegerSum(vs) as real / NonNull(vs) as real))
  {
    hide Fold, Finish;
    IntegersAreNumbers(h, vs);
    SumAndMean(h, vs);
    AvgIsQuotient(h, vs);
    NoNumbers(h, vs);
  }

  /** The finished COUNT is the number of non-null arguments. */
  lemma CountIsNonNull(h: Host, vs: seq<Value>)
    ensures Finish(h, Fold(h, Count, vs)) == Int64(NonNull(vs))
  {
    CountCounts(h, vs);
  }
}
