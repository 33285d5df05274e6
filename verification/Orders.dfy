/** Strict total orders: ordered listings of finite sets, strings and lists of strings.
    They give the meaning of `BTreeMap` iteration and of `sort` followed by `dedup`. */
module Orders {
  import opened Values
  import opened Subsequences

  ghost predicate StrictTotal<T(!new)>(lt: (T, T) -> bool) {
    && (forall x :: !lt(x, x))
    && (forall x, y, z :: lt(x, y) && lt(y, z) ==> lt(x, z))
    && (forall x, y :: x == y || lt(x, y) || lt(y, x))
  }

  ghost predicate Increasing<T>(xs: seq<T>, lt: (T, T) -> bool) {
    forall i, j :: 0 <= i < j < |xs| ==> lt(xs[i], xs[j])
  }

  ghost predicate IsLeast<T>(m: T, s: set<T>, lt: (T, T) -> bool) {
    m in s && forall y :: y in s ==> y == m || lt(m, y)
  }

  ghost predicate Asymmetric<T>(s: set<T>, lt: (T, T) -> bool) {
    forall x, y :: x in s && y in s ==> !(lt(x, y) && lt(y, x))
  }

  lemma ElementsAppend<T>(xs: seq<T>, ys: seq<T>)
    ensures Elements(xs + ys) == Elements(xs) + Elements(ys)
  {
    forall x
      ensures x in xs + ys <==> x in xs || x in ys
    {
    }
  }

  lemma {:induction false} LeastExists<T(!new)>(s: set<T>, lt: (T, T) -> bool)
    requires s != {} && StrictTotal(lt)
    ensures exists m :: IsLeast(m, s, lt)
  {
    var x :| x in s;
    if s == {x} {
      assert IsLeast(x, s, lt);
    } else {
      LeastExists(s - {x}, lt);
      var m :| IsLeast(m, s - {x}, lt);
      assert forall y :: y in s ==> y == x || y in s - {x};
      if lt(x, m) {
        assert IsLeast(x, s, lt);
      } else {
        assert IsLeast(m, s, lt);
      }
    }
  }

  /** The elements of a set in increasing order. */
  ghost function Listing<T(!new)>(s: set<T>, lt: (T, T) -> bool): seq<T>
    requires StrictTotal(lt)
  {
    if s == {} then []
    else
      LeastExists(s, lt);
      var m :| IsLeast(m, s, lt);
      [m] + Listing(s - {m}, lt)
  }

  lemma {:induction false} ListingSpec<T(!new)>(s: set<T>, lt: (T, T) -> bool)
    requires StrictTotal(lt)
    ensures Increasing(Listing(s, lt), lt) && Elements(Listing(s, lt)) == s
  {
    if s != {} {
      LeastExists(s, lt);
      var m :| IsLeast(m, s, lt) && Listing(s, lt) == [m] + Listing(s - {m}, lt);
      ListingSpec(s - {m}, lt);
      var rest := Listing(s - {m}, lt);
      assert forall y :: y in rest ==> y in Elements(rest);
      ElementsAppend([m], rest);
    }
  }

  /** An increasing sequence is determined by its elements. */
  lemma {:induction false} IncreasingUnique<T(!new)>(xs: seq<T>, ys: seq<T>, lt: (T, T) -> bool)
    requires Asymmetric(Elements(xs), lt) && Increasing(xs, lt) && Increasing(ys, lt)
    requires Elements(xs) == Elements(ys)
    ensures xs == ys
    decreases |xs|
  {
    assert ys != [] ==> ys[0] in Elements(ys);
    if xs == [] {
      assert Elements(xs) == {};
    } else {
      assert xs[0] in Elements(xs);
      assert xs[0] in Elements(ys);
      assert ys[0] in Elements(xs);
      assert xs[0] == ys[0];
      TailElements(xs, lt);
      TailElements(ys, lt);
      IncreasingUnique(xs[1..], ys[1..], lt);
    }
  }

  lemma TailElements<T(!new)>(xs: seq<T>, lt: (T, T) -> bool)
    requires Asymmetric(Elements(xs), lt) && Increasing(xs, lt) && xs != []
    ensures Elements(xs[1..]) == Elements(xs) - {xs[0]}
  {
    forall x
      ensures x in xs[1..] <==> x in xs && x != xs[0]
    {
      if x in xs && x != xs[0] {
        var i :| 0 <= i < |xs| && xs[i] == x;
        assert xs[1..][i - 1] == x;
      }
      if x in xs[1..] {
        var i :| 0 <= i < |xs| - 1 && xs[1..][i] == x;
        assert xs[i + 1] == x;
      }
    }
  }

  /** Walks a set in increasing order: the iteration order of `BTreeMap` and of a sorted vector. */
  method ListInOrder<T(!new, ==)>(s: set<T>, lt: (T, T) -> bool) returns (xs: seq<T>)
    requires StrictTotal(lt)
    ensures xs == Listing(s, lt)
  {
    xs := [];
    var left := s;
    while left != {}
      invariant left <= s
      invariant Increasing(xs, lt) && Elements(xs) == s - left
      invariant forall x, y :: x in xs && y in left ==> lt(x, y)
      decreases |left|
    {
      LeastExists(left, lt);
      var m :| m in left && forall y | y in left :: y == m || lt(m, y);
      ElementsAppend(xs, [m]);
      xs := xs + [m];
      left := left - {m};
    }
    ListingSpec(s, lt);
    IncreasingUnique(xs, Listing(s, lt), lt);
  }

  // ----- strings -----

  predicate StringLt(a: string, b: string) {
    CompareStrings(a, b).Less?
  }

  lemma {:induction false} CompareStringsEqual(a: string, b: string)
    ensures CompareStrings(a, b).Equal? <==> a == b
    ensures CompareStrings(b, a) == Reverse(CompareStrings(a, b))
    decreases |a|
  {
    if a != [] && b != [] && a[0] == b[0] {
      CompareStringsEqual(a[1..], b[1..]);
      assert a == [a[0]] + a[1..] && b == [b[0]] + b[1..];
    }
  }

  lemma {:induction false} CompareStringsTransitive(a: string, b: string, c: string)
    requires !CompareStrings(a, b).Greater? && !CompareStrings(b, c).Greater?
    ensures !CompareStrings(a, c).Greater?
    ensures CompareStrings(a, b).Less? || CompareStrings(b, c).Less? ==> CompareStrings(a, c).Less?
    decreases |a|
  {
    if a != [] && b != [] && c != [] && a[0] == b[0] && b[0] == c[0] {
      CompareStringsTransitive(a[1..], b[1..], c[1..]);
    }
  }

  lemma StringLtStrictTotal()
    ensures StrictTotal(StringLt)
  {
    forall a, b
      ensures !StringLt(a, a)
      ensures a == b || StringLt(a, b) || StringLt(b, a)
    {
      CompareStringsEqual(a, a);
      CompareStringsEqual(a, b);
    }
    forall a, b, c | StringLt(a, b) && StringLt(b, c)
      ensures StringLt(a, c)
    {
      CompareStringsTransitive(a, b, c);
    }
  }

  // ----- lists of strings: the grouping keys -----

  type Key = seq<string>

  predicate KeyLt(a: Key, b: Key)
    decreases |a|
  {
    if a == [] then b != []
    else b != [] && (StringLt(a[0], b[0]) || (a[0] == b[0] && KeyLt(a[1..], b[1..])))
  }

  lemma {:induction false} KeyLtConnected(a: Key, b: Key)
    ensures !KeyLt(a, a)
    ensures a == b || KeyLt(a, b) || KeyLt(b, a)
    decreases |a|
  {
    StringLtStrictTotal();
    if a != [] {
      KeyLtConnected(a[1..], a[1..]);
      if b != [] && a[0] == b[0] {
        KeyLtConnected(a[1..], b[1..]);
        assert a == [a[0]] + a[1..] && b == [b[0]] + b[1..];
      }
    }
  }

  lemma {:induction false} KeyLtTransitive(a: Key, b: Key, c: Key)
    requires KeyLt(a, b) && KeyLt(b, c)
    ensures KeyLt(a, c)
    decreases |a|
  {
    StringLtStrictTotal();
    if a != [] && a[0] == b[0] && b[0] == c[0] {
      KeyLtTransitive(a[1..], b[1..], c[1..]);
    }
  }

  lemma KeyLtStrictTotal()
    ensures StrictTotal(KeyLt)
  {
    forall a, b
      ensures !KeyLt(a, a)
      ensures a == b || KeyLt(a, b) || KeyLt(b, a)
    {
      KeyLtConnected(a, b);
    }
    forall a, b, c | KeyLt(a, b) && KeyLt(b, c)
      ensures KeyLt(a, c)
    {
      KeyLtTransitive(a, b, c);
    }
  }
}
