/** Exactly when the comparator of one sort column is a total preorder (crates/rspark-exec/src/operators.rs:475-491,
    crates/rspark-core/src/value.rs:87-128): it treats values that do not compare as equal. */
module SortKeys {
  import opened Results
  import opened Values
  import opened Subsequences
  import opened Orders
  import opened Sorting
  import opened Extremes

  /** The values tie: they compare equal or not at all. */
  predicate Ties(h: Host, a: Value, b: Value) {
    DirectedCmp(h, true, a, b).Equal?
  }

  /** One sort column with these values is a preorder exactly when its comparator chains on them. */
  lemma OneColumn(h: Host, ascending: bool, vs: set<Value>)
    ensures IsPreorder(h, [ascending], set v | v in vs :: [v]) <==> IsChaining(h, vs)
  {
    var ks := set v | v in vs :: [v];
    if IsChaining(h, vs) {
      assert forall a :: a in ks ==> DrawnFrom(a, [vs]);
      ColumnsMakePreorder(h, [ascending], [vs], ks);
    }
    if IsPreorder(h, [ascending], ks) {
      forall a, b, c | a in vs && b in vs && c in vs && ValueAtMost(h, a, b) && ValueAtMost(h, b, c)
        ensures ValueAtMost(h, a, c)
      {
        OneKey(h, ascending, a, b);
        OneKey(h, ascending, b, c);
        OneKey(h, ascending, a, c);
        assert [a] in ks && [b] in ks && [c] in ks;
      }
    }
  }

  lemma OneKey(h: Host, ascending: bool, a: Value, b: Value)
    ensures ascending ==> (KeysAtMost(h, [ascending], [a], [b]) <==> ValueAtMost(h, a, b))
    ensures !ascending ==> (KeysAtMost(h, [ascending], [b], [a]) <==> ValueAtMost(h, a, b))
  {
    DirectedFlips(h, true, a, b);
    OneKeyIs(h, ascending, a, b);
    OneKeyIs(h, ascending, b, a);
  }

  lemma OneKeyIs(h: Host, ascending: bool, a: Value, b: Value)
    ensures CompareKeys(h, [ascending], [a], [b]) == DirectedCmp(h, ascending, a, b)
  {
    assert CompareKeys(h, [ascending][1..], [a][1..], [b][1..]).Equal?;
  }

  // ----- all lists -----

  /** Values that tie compare alike with every other value. */
  ghost predicate TiesAgree(h: Host, vs: set<Value>) {
    forall a, b, c :: a in vs && b in vs && c in vs ==>
      Ties(h, a, b) ==> DirectedCmp(h, true, a, c) == DirectedCmp(h, true, b, c)
  }

  lemma StrictSteps(h: Host, a: Value, b: Value, c: Value)
    requires Monotone(h)
    requires DirectedCmp(h, true, a, b).Less? && DirectedCmp(h, true, b, c).Less?
    ensures ValueAtMost(h, a, c)
  {
    if !a.Null? && !c.Null? && TryCmp(h, a, c).Ok? {
      TripleIsConsistent(h, a, b, c);
    }
  }

  lemma TripleIsConsistent(h: Host, a: Value, b: Value, c: Value)
    requires Monotone(h) && !a.Null? && !b.Null? && !c.Null?
    ensures Chains(h, a, b, c)
  {
    var vs := [a, b, c];
    MonotoneIsConsistent(h, vs);
    assert Chains(h, vs[0], vs[1], vs[2]);
  }

  /** For all values, with monotone conversions: the comparator is a total preorder exactly when ties agree. */
  lemma ChainingIffTiesAgree(h: Host, vs: set<Value>)
    requires Monotone(h)
    ensures IsChaining(h, vs) <==> TiesAgree(h, vs)
  {
    hide DirectedCmp, Monotone;
    if IsChaining(h, vs) {
      forall a, b, c | a in vs && b in vs && c in vs && Ties(h, a, b)
        ensures DirectedCmp(h, true, a, c) == DirectedCmp(h, true, b, c)
      {
        DirectedFlips(h, true, a, b);
        DirectedFlips(h, true, a, c);
        DirectedFlips(h, true, b, c);
      }
    }
    if TiesAgree(h, vs) {
      forall a, b, c | a in vs && b in vs && c in vs && ValueAtMost(h, a, b) && ValueAtMost(h, b, c)
        ensures ValueAtMost(h, a, c)
      {
        DirectedFlips(h, true, a, b);
        DirectedFlips(h, true, a, c);
        DirectedFlips(h, true, b, c);
        if DirectedCmp(h, true, a, b).Less? && DirectedCmp(h, true, b, c).Less? {
          StrictSteps(h, a, b, c);
        }
      }
    }
  }

  // ----- lists without detours -----

  /** No two non-null values compare unequal. */
  ghost predicate AllTie(h: Host, vs: seq<Value>) {
    forall i, j :: 0 <= i < |vs| && 0 <= j < |vs| && !vs[i].Null? && !vs[j].Null? ==> Ties(h, vs[i], vs[j])
  }

  lemma AllTieChains(h: Host, vs: seq<Value>)
    requires AllTie(h, vs)
    ensures IsChaining(h, Elements(vs))
  {
    forall a, b, c | a in Elements(vs) && b in Elements(vs) && c in Elements(vs)
                  && ValueAtMost(h, a, b) && ValueAtMost(h, b, c)
      ensures ValueAtMost(h, a, c)
    {
      var i :| 0 <= i < |vs| && vs[i] == a;
      var j :| 0 <= j < |vs| && vs[j] == b;
      var k :| 0 <= k < |vs| && vs[k] == c;
      if !a.Null? && !c.Null? {
        assert Ties(h, vs[i], vs[k]);
      }
    }
  }

  /** On every host: a chaining list without detours has all values comparable, or all tied. */
  lemma ChainingComparesOrTies(h: Host, vs: seq<Value>)
    requires NoDetours(h, vs) && IsChaining(h, Elements(vs))
    ensures AllCompare(h, vs) || AllTie(h, vs)
  {
    hide TryCmp;
    if !AllCompare(h, vs) && !AllTie(h, vs) {
      var c, d :| 0 <= c < |vs| && 0 <= d < |vs| && !vs[c].Null? && !vs[d].Null? && TryCmp(h, vs[c], vs[d]).Err?;
      var a, b :| 0 <= a < |vs| && 0 <= b < |vs| && !vs[a].Null? && !vs[b].Null? && !Ties(h, vs[a], vs[b]);
      OutsiderBreaksChain(h, vs, a, b, c, d);
    }
  }

  lemma ErrFlips(h: Host, a: Value, b: Value)
    ensures TryCmp(h, a, b).Err? <==> TryCmp(h, b, a).Err?
  {
    if TryCmp(h, a, b).Ok? {
      TryCmpFlips(h, a, b);
    }
    if TryCmp(h, b, a).Ok? {
      TryCmpFlips(h, b, a);
    }
  }

  /** Two unequal values and an incomparable pair: one of the pair ties with both. */
  lemma OutsiderBreaksChain(h: Host, vs: seq<Value>, a: nat, b: nat, c: nat, d: nat)
    requires NoDetours(h, vs) && a < |vs| && b < |vs| && c < |vs| && d < |vs|
    requires !vs[a].Null? && !vs[b].Null? && !vs[c].Null? && !vs[d].Null?
    requires TryCmp(h, vs[c], vs[d]).Err? && !Ties(h, vs[a], vs[b])
    ensures !IsChaining(h, Elements(vs))
  {
    hide TryCmp;
    ErrFlips(h, vs[c], vs[a]);
    ErrFlips(h, vs[d], vs[a]);
    ErrFlips(h, vs[a], vs[b]);
    assert TryCmp(h, vs[b], vs[a]).Ok?;
    var o := if TryCmp(h, vs[c], vs[a]).Err? then c else d;
    assert TryCmp(h, vs[o], vs[a]).Err? && TryCmp(h, vs[o], vs[b]).Err?;
    ErrFlips(h, vs[o], vs[a]);
    ErrFlips(h, vs[o], vs[b]);
    DirectedFlips(h, true, vs[a], vs[b]);
    var lo, hi := if DirectedCmp(h, true, vs[a], vs[b]).Less? then vs[a] else vs[b],
                  if DirectedCmp(h, true, vs[a], vs[b]).Less? then vs[b] else vs[a];
    assert lo in Elements(vs) && hi in Elements(vs) && vs[o] in Elements(vs);
    assert ValueAtMost(h, hi, vs[o]) && ValueAtMost(h, vs[o], lo) && !ValueAtMost(h, hi, lo);
  }

  /** A Float64 in the list equals two different integers of it, which rounding makes possible. */
  ghost predicate RoundingClash(h: Host, vs: seq<Value>) {
    exists i, j, k :: 0 <= i < |vs| && 0 <= j < |vs| && 0 <= k < |vs| && IsClash(h, vs[i], vs[j], vs[k])
  }

  predicate IsClash(h: Host, x: Value, y: Value, f: Value) {
    IsInteger(x) && IsInteger(y) && f.Float64? && TryCmp(h, x, y) == Ok(Less)
    && TryCmp(h, x, f) == Ok(Equal) && TryCmp(h, y, f) == Ok(Equal)
  }

  /** Widening Float32 to Float64 keeps different numbers different. */
  ghost predicate Widening(h: Host) {
    Monotone(h)
    && forall x, y :: CompareFloats(x, y) == Some(Less) ==> CompareFloats(h.f32ToF64(x), h.f32ToF64(y)) == Some(Less)
  }

  lemma ClashTriple(h: Host, x: Value, y: Value, f: Value)
    requires IsClash(h, x, y, f)
    ensures ValueAtMost(h, y, f) && ValueAtMost(h, f, x) && !ValueAtMost(h, y, x) && !Ties(h, x, y)
    ensures !x.Null? && !y.Null?
  {
    hide TryCmp;
    TryCmpFlips(h, x, y);
    TryCmpFlips(h, x, f);
  }

  lemma ClashBreaksChain(h: Host, vs: seq<Value>)
    requires RoundingClash(h, vs)
    ensures !IsChaining(h, Elements(vs)) && !AllTie(h, vs)
  {
    hide TryCmp, IsClash, ValueAtMost, Ties;
    var i, j, k :| 0 <= i < |vs| && 0 <= j < |vs| && 0 <= k < |vs| && IsClash(h, vs[i], vs[j], vs[k]);
    ClashTriple(h, vs[i], vs[j], vs[k]);
    assert vs[i] in Elements(vs) && vs[j] in Elements(vs) && vs[k] in Elements(vs);
  }

  lemma ComparableStep(h: Host, a: Value, b: Value, c: Value)
    requires Widening(h) && !a.Null? && !b.Null? && !c.Null?
    requires TryCmp(h, a, b).Ok? && TryCmp(h, b, c).Ok? && TryCmp(h, a, c).Ok?
    requires !IsClash(h, c, a, b) && ValueAtMost(h, a, b) && ValueAtMost(h, b, c)
    ensures ValueAtMost(h, a, c)
  {
    if IsNumber(a) {
      NumbersStep(h, a, b, c);
    } else if a.String? {
      StringsChain(h, a, b, c);
      CompareStringsEqual(a.s, b.s);
      CompareStringsEqual(b.s, c.s);
    }
  }

  lemma NumbersStep(h: Host, a: Value, b: Value, c: Value)
    requires Widening(h) && IsNumber(a) && IsNumber(b) && IsNumber(c)
    requires TryCmp(h, a, b).Ok? && TryCmp(h, b, c).Ok? && TryCmp(h, a, c).Ok?
    requires !IsClash(h, c, a, b) && AtMost(h, a, b) && AtMost(h, b, c)
    ensures AtMost(h, a, c)
  {
    if a.Float64? || b.Float64? || c.Float64? {
      TryCmpFlips(h, a, b);
      TryCmpFlips(h, b, c);
      TryCmpFlips(h, a, c);
      ImagesFollow(h, a, b);
      ImagesFollow(h, b, c);
      ImagesFollow(h, a, c);
      ImagesFollow(h, b, a);
      ImagesFollow(h, c, b);
      ImagesFollow(h, c, a);
      FloatChains(AsF64(h, a), AsF64(h, b), AsF64(h, c));
    }
  }

  lemma ComparableChains(h: Host, vs: seq<Value>)
    requires Widening(h) && AllCompare(h, vs) && !RoundingClash(h, vs)
    ensures IsChaining(h, Elements(vs))
  {
    hide TryCmp, ValueAtMost, IsClash, Widening;
    forall a, b, c | a in Elements(vs) && b in Elements(vs) && c in Elements(vs)
                  && ValueAtMost(h, a, b) && ValueAtMost(h, b, c)
      ensures ValueAtMost(h, a, c)
    {
      var i :| 0 <= i < |vs| && vs[i] == a;
      var j :| 0 <= j < |vs| && vs[j] == b;
      var k :| 0 <= k < |vs| && vs[k] == c;
      assert !IsClash(h, vs[k], vs[i], vs[j]);
      if a.Null? || b.Null? || c.Null? {
        NullStep(h, a, b, c);
      } else {
        ComparableStep(h, a, b, c);
      }
    }
  }

  /** For lists without detours: the comparator is a total preorder exactly when all non-null values tie, or all
      compare and no Float64 equals two different integers. */
  lemma ChainingExactly(h: Host, vs: seq<Value>)
    requires Widening(h) && NoDetours(h, vs)
    ensures IsChaining(h, Elements(vs)) <==> AllTie(h, vs) || (AllCompare(h, vs) && !RoundingClash(h, vs))
  {
    hide IsChaining, AllTie, AllCompare, RoundingClash, NoDetours, Widening;
    if IsChaining(h, Elements(vs)) {
      ChainingComparesOrTies(h, vs);
      if RoundingClash(h, vs) {
        ClashBreaksChain(h, vs);
      }
    }
    if AllTie(h, vs) {
      AllTieChains(h, vs);
    } else if AllCompare(h, vs) && !RoundingClash(h, vs) {
      ComparableChains(h, vs);
    }
  }

  lemma NullStep(h: Host, a: Value, b: Value, c: Value)
    requires a.Null? || b.Null? || c.Null?
    requires ValueAtMost(h, a, b) && ValueAtMost(h, b, c)
    ensures ValueAtMost(h, a, c)
  {
  }

  // ----- lists whose types do not compare with each other -----

  /** On every host, where different types do not compare: the comparator is a total preorder exactly when the
      values are of one type without NaN, or no two of them compare unequal. */
  lemma ChainingWithTypesApart(h: Host, vs: seq<Value>)
    requires TypesApart(h, vs)
    ensures IsChaining(h, Elements(vs)) <==> (exists k :: AllOfKind(vs, k)) || AllTie(h, vs)
  {
    hide TryCmp, DataTypeName, OfKind, DirectedCmp;
    TypesApartIsConsistent(h, vs);
    AllCompareIffOneKind(h, vs);
    if IsChaining(h, Elements(vs)) {
      ChainingComparesOrTies(h, vs);
    }
    if k :| AllOfKind(vs, k) {
      OneKindChains(h, k, Elements(vs));
    }
    if AllTie(h, vs) {
      AllTieChains(h, vs);
    }
  }

  /** For instance 2, 'a' and 1: both numbers tie with the string, but 1 is less than 2. */
  lemma MixedKeysAreNoPreorder(h: Host)
    ensures !IsPreorder(h, [true], {[Int64(2)], [Int64(1)], [String("a")]})
  {
    var two, one, a := [Int64(2)], [Int64(1)], [String("a")];
    OneKey(h, true, two[0], a[0]);
    OneKey(h, true, a[0], one[0]);
    OneKey(h, true, two[0], one[0]);
    assert KeysAtMost(h, [true], two, a) && KeysAtMost(h, [true], a, one) && !KeysAtMost(h, [true], two, one);
  }
}
