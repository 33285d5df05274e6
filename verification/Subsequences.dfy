/** Subsequences selected by flags, as rows and as positions. */
module Subsequences {

  ghost function Elements<T>(xs: seq<T>): set<T> {
    set x | x in xs
  }

  ghost predicate NoDuplicates<T>(xs: seq<T>) {
    forall i, j :: 0 <= i < j < |xs| ==> xs[i] != xs[j]
  }


  /** The elements whose flag is set, in order. */
  ghost function Select<T>(xs: seq<T>, flags: seq<bool>): seq<T>
    requires |xs| == |flags|
  {
    if xs == [] then []
    else
      var n := |xs| - 1;
      Select(xs[..n], flags[..n]) + (if flags[n] then [xs[n]] else [])
  }

  /** The positions whose flag is set. */
  ghost function Positions(flags: seq<bool>): (at: seq<nat>)
    ensures forall k :: 0 <= k < |at| ==> at[k] < |flags|
  {
    if flags == [] then []
    else
      var n := |flags| - 1;
      Positions(flags[..n]) + (if flags[n] then [n] else [])
  }

  ghost function Pick<T>(xs: seq<T>, at: seq<nat>): (out: seq<T>)
    requires forall k :: 0 <= k < |at| ==> at[k] < |xs|
    ensures |out| == |at| && forall k :: 0 <= k < |at| ==> out[k] == xs[at[k]]
  {
    seq(|at|, k requires 0 <= k < |at| => xs[at[k]])
  }

  /** The positions are strictly increasing and exactly the flagged ones. */
  lemma {:induction false} PositionsExact(flags: seq<bool>)
    ensures forall j, k :: 0 <= j < k < |Positions(flags)| ==> Positions(flags)[j] < Positions(flags)[k]
    ensures forall i :: 0 <= i < |flags| ==> (i in Positions(flags) <==> flags[i])
  {
    if flags != [] {
      var n := |flags| - 1;
      PositionsExact(flags[..n]);
      var at := Positions(flags[..n]);
      var more := if flags[n] then [n] else [];
      assert forall i :: i in at + more <==> i in at || i in more;
      assert n !in at;
    }
  }

  /** Selecting is reading off the flagged positions in order: a subsequence. */
  lemma {:induction false} SelectIsPick<T>(xs: seq<T>, flags: seq<bool>)
    requires |xs| == |flags|
    ensures Select(xs, flags) == Pick(xs, Positions(flags))
  {
    if xs != [] {
      var n := |xs| - 1;
      SelectIsPick(xs[..n], flags[..n]);
    }
  }

  /** The images of the elements, concatenated in order. */
  ghost function FlatMap<A, B>(f: A -> seq<B>, xs: seq<A>): seq<B> {
    if xs == [] then []
    else FlatMap(f, xs[..|xs| - 1]) + f(xs[|xs| - 1])
  }

  lemma FlatMapSnoc<A, B>(f: A -> seq<B>, xs: seq<A>, x: A)
    ensures FlatMap(f, xs + [x]) == FlatMap(f, xs) + f(x)
  {
    assert (xs + [x])[..|xs|] == xs;
  }

  lemma {:induction false} FlatMapAppend<A, B>(f: A -> seq<B>, xs: seq<A>, ys: seq<A>)
    ensures FlatMap(f, xs + ys) == FlatMap(f, xs) + FlatMap(f, ys)
  {
    if ys == [] {
      assert xs + ys == xs;
    } else {
      var n := |ys| - 1;
      FlatMapAppend(f, xs, ys[..n]);
      FlatMapSnoc(f, xs + ys[..n], ys[n]);
      assert (xs + ys[..n]) + [ys[n]] == xs + ys;
    }
  }

  /** Selecting fewer elements gives the same sequence only if no flag was dropped. */
  lemma {:induction false} SelectFewer<T>(xs: seq<T>, fewer: seq<bool>, flags: seq<bool>)
    requires |xs| == |fewer| == |flags| && forall i :: 0 <= i < |flags| && fewer[i] ==> flags[i]
    ensures |Select(xs, fewer)| <= |Select(xs, flags)|
    ensures Select(xs, fewer) == Select(xs, flags) <==> fewer == flags
    ensures |Select(xs, fewer)| == |Select(xs, flags)| ==> fewer == flags
  {
    if xs != [] {
      var n := |xs| - 1;
      SelectFewer(xs[..n], fewer[..n], flags[..n]);
      assert fewer == fewer[..n] + [fewer[n]] && flags == flags[..n] + [flags[n]];
    }
  }

  /** The same for concatenated images of which some are dropped. */
  lemma {:induction false} FlatMapFewer<A(!new), B>(fewer: A -> seq<B>, f: A -> seq<B>, xs: seq<A>)
    requires forall x :: fewer(x) == f(x) || fewer(x) == []
    ensures |FlatMap(fewer, xs)| <= |FlatMap(f, xs)|
    ensures FlatMap(fewer, xs) == FlatMap(f, xs) <==> forall i :: 0 <= i < |xs| ==> fewer(xs[i]) == f(xs[i])
    ensures |FlatMap(fewer, xs)| == |FlatMap(f, xs)| ==> FlatMap(fewer, xs) == FlatMap(f, xs)
  {
    if xs != [] {
      var n := |xs| - 1;
      FlatMapFewer(fewer, f, xs[..n]);
      assert forall i :: 0 <= i < n ==> xs[..n][i] == xs[i];
      if FlatMap(fewer, xs) == FlatMap(f, xs) {
        assert |fewer(xs[n])| == |f(xs[n])|;
      }
    }
  }

  // ----- subsequences of any sequence -----

  /** `xs` is read off `ys` at strictly increasing positions. */
  ghost predicate Embeds<T(!new)>(at: seq<nat>, xs: seq<T>, ys: seq<T>) {
    && |at| == |xs|
    && (forall j, k :: 0 <= j < k < |at| ==> at[j] < at[k])
    && forall k :: 0 <= k < |at| ==> at[k] < |ys| && ys[at[k]] == xs[k]
  }

  ghost predicate IsSubsequence<T(!new)>(xs: seq<T>, ys: seq<T>) {
    exists at: seq<nat> :: Embeds(at, xs, ys)
  }

  lemma SubsequenceOfItself<T(!new)>(xs: seq<T>)
    ensures IsSubsequence(xs, xs)
  {
    assert Embeds(seq(|xs|, k requires 0 <= k < |xs| => k), xs, xs);
  }

  lemma SubsequenceAppend<T(!new)>(xs: seq<T>, ys: seq<T>, zs: seq<T>)
    requires IsSubsequence(xs, ys)
    ensures IsSubsequence(xs + zs, ys + zs) && IsSubsequence(xs, ys + zs)
  {
    var at: seq<nat> :| Embeds(at, xs, ys);
    assert Embeds(at, xs, ys + zs);
    var more := seq(|zs|, k requires 0 <= k < |zs| => |ys| + k);
    assert Embeds(at + more, xs + zs, ys + zs);
  }

  lemma SubsequencePrepend<T(!new)>(ps: seq<T>, xs: seq<T>, ys: seq<T>)
    requires IsSubsequence(xs, ys)
    ensures IsSubsequence(ps + xs, ps + ys)
  {
    var at: seq<nat> :| Embeds(at, xs, ys);
    var first := seq(|ps|, k requires 0 <= k < |ps| => k);
    var moved := seq(|at|, k requires 0 <= k < |at| => |ps| + at[k]);
    assert Embeds(first + moved, ps + xs, ps + ys);
  }

  lemma SubsequenceTransitive<T(!new)>(xs: seq<T>, ys: seq<T>, zs: seq<T>)
    requires IsSubsequence(xs, ys) && IsSubsequence(ys, zs)
    ensures IsSubsequence(xs, zs)
  {
    var at: seq<nat> :| Embeds(at, xs, ys);
    var to: seq<nat> :| Embeds(to, ys, zs);
    assert Embeds(seq(|at|, k requires 0 <= k < |at| => to[at[k]]), xs, zs);
  }
}
