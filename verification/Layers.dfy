/** Level-synchronous layering of the pipeline graph (crates/rspark-pipelines/src/dag.rs:53-84). */
module Layers {
  import opened Subsequences

  /** A directed multigraph over the nodes 0..n-1. */
  datatype Graph = Graph(n: nat, edges: seq<(nat, nat)>)

  ghost predicate Valid(g: Graph) {
    forall k :: 0 <= k < |g.edges| ==> g.edges[k].0 < g.n && g.edges[k].1 < g.n
  }

  predicate HasEdge(g: Graph, u: nat, v: nat) {
    (u, v) in g.edges
  }

  // ----- paths, cycles, longest paths -----

  /** A walk along edges; it has one edge less than nodes. */
  ghost predicate IsPath(g: Graph, p: seq<nat>) {
    && |p| > 0 && p[0] < g.n
    && forall i :: 0 <= i < |p| - 1 ==> HasEdge(g, p[i], p[i + 1])
  }

  /** `p` is a path with `k` edges ending in `v`. */
  ghost predicate IsPathTo(g: Graph, p: seq<nat>, v: nat, k: nat) {
    IsPath(g, p) && |p| == k + 1 && p[k] == v
  }

  /** Some path with exactly `k` edges ends in `v`. */
  ghost predicate HasPathTo(g: Graph, v: nat, k: nat) {
    exists p :: IsPathTo(g, p, v, k)
  }

  /** The longest path ending in `v` has `k` edges. */
  ghost predicate LongestPathIs(g: Graph, v: nat, k: nat) {
    HasPathTo(g, v, k) && !HasPathTo(g, v, k + 1)
  }

  ghost predicate IsCycle(g: Graph, c: seq<nat>) {
    IsPath(g, c) && |c| > 1 && c[0] == c[|c| - 1]
  }

  /** Some path leads from a node on a cycle to `v`. */
  ghost predicate FromCycle(g: Graph, v: nat) {
    exists c, p :: LeadsFrom(g, c, p, v)
  }

  ghost predicate LeadsFrom(g: Graph, c: seq<nat>, p: seq<nat>, v: nat) {
    IsCycle(g, c) && IsPath(g, p) && p[0] == c[0] && p[|p| - 1] == v
  }

  ghost predicate Acyclic(g: Graph) {
    forall c :: !IsCycle(g, c)
  }

  // ----- peeling: what is left after k rounds -----

  /** The nodes that survive `k` rounds of removing all nodes without incoming edges. */
  ghost function Remaining(g: Graph, k: nat): set<nat> {
    if k == 0 then set v: nat | v < g.n && IsNode(g, v)
    else Survivors(g, Remaining(g, k - 1))
  }

  /** The nodes of `s` that some other node of `s` (or the node itself) still points to. */
  ghost function Survivors(g: Graph, s: set<nat>): set<nat> {
    set v | v in s && HasSource(g, s, v)
  }

  predicate IsNode(g: Graph, v: nat) {
    v < g.n
  }

  /** Some edge from a node in `s` enters `v`. */
  ghost predicate HasSource(g: Graph, s: set<nat>, v: nat) {
    exists u :: u in s && HasEdge(g, u, v)
  }

  lemma {:induction false} RemainingShrinks(g: Graph, j: nat, k: nat)
    requires j <= k
    ensures Remaining(g, k) <= Remaining(g, j)
  {
    if j < k {
      RemainingShrinks(g, j, k - 1);
    }
  }

  lemma PathPrefix(g: Graph, p: seq<nat>, n: nat)
    requires IsPath(g, p) && 0 < n <= |p|
    ensures IsPath(g, p[..n])
  {
    assert forall i :: 0 <= i < n ==> p[..n][i] == p[i];
  }

  lemma PathSuffix(g: Graph, p: seq<nat>, m: nat)
    requires Valid(g) && IsPath(g, p) && m < |p|
    ensures IsPath(g, p[m..])
  {
    assert forall i :: 0 <= i < |p| - m ==> p[m..][i] == p[m + i];
    if m > 0 {
      assert HasEdge(g, p[m - 1], p[m - 1 + 1]);
      EdgeTarget(g, p[m - 1], p[m]);
    }
  }

  lemma EdgeTarget(g: Graph, u: nat, v: nat)
    requires Valid(g) && HasEdge(g, u, v)
    ensures u < g.n && v < g.n
  {
    var k :| 0 <= k < |g.edges| && g.edges[k] == (u, v);
  }

  lemma PathSnoc(g: Graph, p: seq<nat>, v: nat)
    requires IsPath(g, p) && HasEdge(g, p[|p| - 1], v)
    ensures IsPath(g, p + [v])
  {
    var q := p + [v];
    forall i | 0 <= i < |q| - 1
      ensures HasEdge(g, q[i], q[i + 1])
    {
      if i < |p| - 1 {
        assert q[i] == p[i] && q[i + 1] == p[i + 1];
      }
    }
  }

  lemma {:induction false} SurvivorHasPath(g: Graph, v: nat, k: nat)
    requires v in Remaining(g, k)
    ensures HasPathTo(g, v, k)
    decreases k
  {
    if k == 0 {
      assert IsPathTo(g, [v], v, 0);
    } else {
      assert HasSource(g, Remaining(g, k - 1), v);
      var u :| u in Remaining(g, k - 1) && HasEdge(g, u, v);
      SurvivorHasPath(g, u, k - 1);
      var p :| IsPathTo(g, p, u, k - 1);
      PathSnoc(g, p, v);
      assert IsPathTo(g, p + [v], v, k);
    }
  }

  lemma {:induction false} PathEndSurvives(g: Graph, p: seq<nat>, v: nat, k: nat)
    requires Valid(g) && IsPathTo(g, p, v, k)
    ensures v in Remaining(g, k)
    decreases k
  {
    if k > 0 {
      assert HasEdge(g, p[k - 1], p[k - 1 + 1]);
      PathPrefix(g, p, k);
      PathEndSurvives(g, p[..k], p[k - 1], k - 1);
      PathSuffix(g, p, 1);
      PathEndSurvives(g, p[1..], v, k - 1);
      assert HasSource(g, Remaining(g, k - 1), v);
    }
  }

  /** A node survives `k` rounds exactly when a path with `k` edges ends in it. */
  lemma RemainingIsPaths(g: Graph, v: nat, k: nat)
    requires Valid(g)
    ensures v in Remaining(g, k) <==> HasPathTo(g, v, k)
  {
    if v in Remaining(g, k) {
      SurvivorHasPath(g, v, k);
    }
    if HasPathTo(g, v, k) {
      var p :| IsPathTo(g, p, v, k);
      PathEndSurvives(g, p, v, k);
    }
  }

  /** A node is removed in round `k` exactly when its longest path has `k` edges. */
  lemma LayerIsLongestPath(g: Graph, v: nat, k: nat)
    requires Valid(g)
    ensures v in Remaining(g, k) - Remaining(g, k + 1) <==> LongestPathIs(g, v, k)
  {
    RemainingIsPaths(g, v, k);
    RemainingIsPaths(g, v, k + 1);
  }

  // ----- nodes that are never removed -----

  /** A longer path than there are nodes visits some node twice. */
  lemma {:induction false} Pigeonhole(n: nat, p: seq<nat>)
    requires |p| > n && forall i :: 0 <= i < |p| ==> p[i] < n
    ensures exists i, j :: 0 <= i < j < |p| && p[i] == p[j]
  {
    assert p[0] < n;
    if n > 0 {
      if i :| 0 <= i < |p| && p[i] == n - 1 {
        if j :| 0 <= j < |p| && j != i && p[j] == n - 1 {
          assert p[if i < j then i else j] == p[if i < j then j else i];
        } else {
          var q := p[..i] + p[i + 1..];
          forall k | 0 <= k < |q|
            ensures q[k] < n - 1
          {
            assert q[k] == p[if k < i then k else k + 1];
          }
          Pigeonhole(n - 1, q);
          var a, b :| 0 <= a < b < |q| && q[a] == q[b];
          var a', b' := if a < i then a else a + 1, if b < i then b else b + 1;
          assert a' < b' && p[a'] == p[b'];
        }
      } else {
        Pigeonhole(n - 1, p);
      }
    }
  }

  lemma PathNodes(g: Graph, p: seq<nat>)
    requires Valid(g) && IsPath(g, p)
    ensures forall i :: 0 <= i < |p| ==> p[i] < g.n
  {
    forall i | 0 <= i < |p|
      ensures p[i] < g.n
    {
      if i > 0 {
        assert HasEdge(g, p[i - 1], p[i - 1 + 1]);
        EdgeTarget(g, p[i - 1], p[i]);
      }
    }
  }

  /** Surviving as many rounds as there are nodes means being reachable from a cycle. */
  lemma SurvivorIsFromCycle(g: Graph, v: nat)
    requires Valid(g) && v in Remaining(g, g.n)
    ensures FromCycle(g, v)
  {
    RemainingIsPaths(g, v, g.n);
    var p :| IsPathTo(g, p, v, g.n);
    PathNodes(g, p);
    Pigeonhole(g.n, p);
    var i, j :| 0 <= i < j < |p| && p[i] == p[j];
    PathSuffix(g, p, i);
    PathPrefix(g, p[i..], j - i + 1);
    var c, q := p[i..][..j - i + 1], p[i..];
    assert c[0] == p[i] && c[|c| - 1] == p[j] && q[|q| - 1] == p[|p| - 1];
    assert LeadsFrom(g, c, q, v);
  }

  lemma {:induction false} CycleSurvives(g: Graph, c: seq<nat>, i: nat, k: nat)
    requires Valid(g) && IsCycle(g, c) && i < |c|
    ensures c[i] in Remaining(g, k)
    decreases k
  {
    PathNodes(g, c);
    if k > 0 {
      CycleSurvives(g, c, i, k - 1);
      var j := if i == 0 then |c| - 2 else i - 1;
      CycleSurvives(g, c, j, k - 1);
      assert HasEdge(g, c[j], c[j + 1]);
    }
  }

  lemma {:induction false} PathFromCycleSurvives(g: Graph, c: seq<nat>, p: seq<nat>, i: nat, k: nat)
    requires Valid(g) && IsCycle(g, c) && IsPath(g, p) && p[0] == c[0] && i < |p|
    ensures p[i] in Remaining(g, k)
    decreases k, i
  {
    PathNodes(g, p);
    if i == 0 {
      CycleSurvives(g, c, 0, k);
    } else if k > 0 {
      PathFromCycleSurvives(g, c, p, i, k - 1);
      PathFromCycleSurvives(g, c, p, i - 1, k - 1);
      assert HasEdge(g, p[i - 1], p[i - 1 + 1]);
    }
  }

  /** Reachable from a cycle means surviving every round. */
  lemma FromCycleSurvives(g: Graph, v: nat, k: nat)
    requires Valid(g) && FromCycle(g, v)
    ensures v in Remaining(g, k)
  {
    var c, p :| LeadsFrom(g, c, p, v);
    PathFromCycleSurvives(g, c, p, |p| - 1, k);
  }

  /** Once a round removes nothing, nothing is ever removed. */
  lemma {:induction false} StuckForever(g: Graph, m: nat, k: nat)
    requires Remaining(g, m) == Remaining(g, m + 1) && m <= k
    ensures Remaining(g, k) == Remaining(g, m)
  {
    if m < k {
      StuckForever(g, m, k - 1);
      if k - 1 > m {
        assert Remaining(g, k) == Remaining(g, m + 1);
      }
    }
  }

  /** The nodes left when a round removes nothing are exactly those reachable from a cycle. */
  lemma StuckIsFromCycle(g: Graph, m: nat, v: nat)
    requires Valid(g) && Remaining(g, m) == Remaining(g, m + 1)
    ensures v in Remaining(g, m) <==> FromCycle(g, v)
  {
    if v in Remaining(g, m) {
      var k := if m < g.n then g.n else m;
      StuckForever(g, m, k);
      RemainingShrinks(g, g.n, k);
      SurvivorIsFromCycle(g, v);
    }
    if FromCycle(g, v) {
      FromCycleSurvives(g, v, m);
    }
  }

  lemma AcyclicMeansNoSurvivors(g: Graph)
    requires Valid(g)
    ensures Acyclic(g) <==> forall v :: !FromCycle(g, v)
  {
    if v :| FromCycle(g, v) {
      var c, p :| LeadsFrom(g, c, p, v);
      assert IsCycle(g, c);
    }
    if c :| IsCycle(g, c) {
      assert LeadsFrom(g, c, c, c[|c| - 1]);
      assert FromCycle(g, c[|c| - 1]);
    }
  }

  // ----- in-degree counts -----

  /** How many of the edges, counted with multiplicity, lead from a node of `s` to `v`. */
  ghost function CountInto(edges: seq<(nat, nat)>, s: set<nat>, v: nat): nat {
    if edges == [] then 0
    else
      var (a, b) := edges[|edges| - 1];
      CountInto(edges[..|edges| - 1], s, v) + if a in s && b == v then 1 else 0
  }

  lemma CountStep(edges: seq<(nat, nat)>, k: nat, s: set<nat>, v: nat)
    requires k < |edges|
    ensures CountInto(edges[..k + 1], s, v)
         == CountInto(edges[..k], s, v) + if edges[k].0 in s && edges[k].1 == v then 1 else 0
  {
    assert edges[..k + 1][..k] == edges[..k];
  }

  lemma {:induction false} CountRemove(edges: seq<(nat, nat)>, s: set<nat>, u: nat, v: nat)
    requires u in s
    ensures CountInto(edges, s, v) == CountInto(edges, s - {u}, v) + CountInto(edges, {u}, v)
  {
    if edges != [] {
      CountRemove(edges[..|edges| - 1], s, u, v);
    }
  }

  lemma {:induction false} CountPrefix(edges: seq<(nat, nat)>, k: nat, s: set<nat>, v: nat)
    requires k <= |edges|
    ensures CountInto(edges[..k], s, v) <= CountInto(edges, s, v)
  {
    if k < |edges| {
      CountPrefix(edges[..|edges| - 1], k, s, v);
      assert edges[..|edges| - 1][..k] == edges[..k];
    } else {
      assert edges[..k] == edges;
    }
  }

  /** Decrementing for the edge at position `k` out of `u` stays at or above zero. */
  lemma CountNeverSaturates(edges: seq<(nat, nat)>, k: nat, s: set<nat>, u: nat, v: nat)
    requires k < |edges| && u in s && edges[k] == (u, v)
    ensures CountInto(edges, s, v) > CountInto(edges[..k], {u}, v)
  {
    CountRemove(edges, s, u, v);
    CountStep(edges, k, {u}, v);
    CountPrefix(edges, k + 1, {u}, v);
  }

  lemma {:induction false} CountZero(edges: seq<(nat, nat)>, s: set<nat>, v: nat)
    ensures CountInto(edges, s, v) == 0 <==> forall u :: u in s ==> (u, v) !in edges
  {
    if edges != [] {
      var init, e := edges[..|edges| - 1], edges[|edges| - 1];
      CountZero(init, s, v);
      forall u
        ensures (u, v) in edges <==> (u, v) in init || (u, v) == e
      {
        assert edges == init + [e];
      }
      if u :| u in s && (u, v) in edges {
        assert (u, v) in init || e == (u, v);
      }
    }
  }

  // ----- the layering loop -----

  /** The counts that the loop keeps: for each remaining node, its edges from remaining nodes. */
  ghost predicate Counts(g: Graph, s: set<nat>, remaining: map<nat, nat>) {
    forall v :: v in remaining ==> remaining[v] == CountInto(g.edges, s, v)
  }

  method InDegrees(g: Graph) returns (indeg: map<nat, nat>)
    requires Valid(g)
    ensures indeg.Keys == Remaining(g, 0)
    ensures Counts(g, indeg.Keys, indeg)
  {
    indeg := map v: nat | v < g.n && IsNode(g, v) :: 0;
    ghost var all := indeg.Keys;
    for k := 0 to |g.edges|
      invariant indeg.Keys == all
      invariant forall v :: v in indeg ==> indeg[v] == CountInto(g.edges[..k], all, v)
    {
      forall v | v in indeg
        ensures CountInto(g.edges[..k + 1], all, v)
             == CountInto(g.edges[..k], all, v) + if g.edges[k].1 == v then 1 else 0
      {
        assert IsNode(g, g.edges[k].0);
        CountStep(g.edges, k, all, v);
      }
      assert IsNode(g, g.edges[k].1);
      var target := g.edges[k].1;
      indeg := indeg[target := indeg[target] + 1];
    }
    assert g.edges[..|g.edges|] == g.edges;
  }

  /** The nodes whose count is zero, in an arbitrary order (the map has none). */
  method CollectZeros(remaining: map<nat, nat>) returns (layer: seq<nat>)
    ensures NoDuplicates(layer)
    ensures forall v :: v in layer <==> v in remaining && remaining[v] == 0
  {
    layer := [];
    var todo := remaining.Keys;
    while todo != {}
      invariant todo <= remaining.Keys
      invariant NoDuplicates(layer)
      invariant forall v :: v in layer <==> v in remaining && remaining[v] == 0 && v !in todo
      decreases |todo|
    {
      var v :| v in todo;
      todo := todo - {v};
      if remaining[v] == 0 {
        layer := layer + [v];
      }
    }
  }

  method RemoveAll(before: map<nat, nat>, layer: seq<nat>) returns (remaining: map<nat, nat>)
    ensures remaining.Keys == before.Keys - Elements(layer)
    ensures forall v :: v in remaining ==> remaining[v] == before[v]
  {
    remaining := before;
    for k := 0 to |layer|
      invariant remaining.Keys == before.Keys - Elements(layer[..k])
      invariant forall v :: v in remaining ==> remaining[v] == before[v]
    {
      remaining := remaining - {layer[k]};
      assert layer[..k + 1] == layer[..k] + [layer[k]];
    }
    assert layer[..|layer|] == layer;
  }

  function SaturatingSub(a: nat, b: nat): nat {
    if a >= b then a - b else 0
  }

  /** Takes the edges out of `u` off the counts, once per parallel edge; `u` is one of the
      nodes `s` that the counts range over. */
  method ReleaseNode(g: Graph, before: map<nat, nat>, ghost s: set<nat>, u: nat)
    returns (remaining: map<nat, nat>, ghost saturated: bool)
    requires u in s && Counts(g, s, before)
    ensures remaining.Keys == before.Keys
    ensures Counts(g, s - {u}, remaining)
    ensures !saturated
  {
    remaining, saturated := before, false;
    for k := 0 to |g.edges|
      invariant remaining.Keys == before.Keys
      invariant !saturated
      invariant forall v :: v in remaining ==>
        remaining[v] == CountInto(g.edges, s, v) - CountInto(g.edges[..k], {u}, v)
    {
      ghost var was := remaining;
      forall v | v in remaining
        ensures CountInto(g.edges[..k + 1], {u}, v)
             == CountInto(g.edges[..k], {u}, v) + if g.edges[k] == (u, v) then 1 else 0
      {
        CountStep(g.edges, k, {u}, v);
      }
      var (source, target) := g.edges[k];
      if source == u && target in remaining {
        CountNeverSaturates(g.edges, k, s, u, target);
        saturated := saturated || remaining[target] < 1;
        remaining := remaining[target := SaturatingSub(remaining[target], 1)];
      }
    }
    assert g.edges[..|g.edges|] == g.edges;
    forall v | v in remaining
      ensures remaining[v] == CountInto(g.edges, s - {u}, v)
    {
      CountRemove(g.edges, s, u, v);
    }
  }

  method ReleaseAll(g: Graph, before: map<nat, nat>, ghost s: set<nat>, layer: seq<nat>)
    returns (remaining: map<nat, nat>, ghost saturated: bool)
    requires NoDuplicates(layer) && (forall v :: v in layer ==> v in s) && Counts(g, s, before)
    ensures remaining.Keys == before.Keys
    ensures Counts(g, s - Elements(layer), remaining)
    ensures !saturated
  {
    remaining, saturated := before, false;
    ghost var live := s;
    assert s - Elements(layer[..0]) == s;
    for k := 0 to |layer|
      invariant remaining.Keys == before.Keys
      invariant live == s - Elements(layer[..k])
      invariant Counts(g, live, remaining)
      invariant !saturated
    {
      ghost var hit;
      remaining, hit := ReleaseNode(g, remaining, live, layer[k]);
      saturated := saturated || hit;
      assert layer[..k + 1] == layer[..k] + [layer[k]];
      live := live - {layer[k]};
    }
    assert layer[..|layer|] == layer;
  }

  /** Removes one layer and takes its outgoing edges off the counts. */
  method RemoveLayer(g: Graph, before: map<nat, nat>, layer: seq<nat>)
    returns (remaining: map<nat, nat>, ghost saturated: bool)
    requires layer != [] && NoDuplicates(layer) && (forall v :: v in layer ==> v in before)
    requires Counts(g, before.Keys, before)
    ensures remaining.Keys == before.Keys - Elements(layer)
    ensures Counts(g, remaining.Keys, remaining)
    ensures |remaining| < |before|
    ensures !saturated
  {
    hide NoDuplicates, CountInto;
    remaining := RemoveAll(before, layer);
    remaining, saturated := ReleaseAll(g, remaining, before.Keys, layer);
    assert layer[0] in before && layer[0] !in remaining;
    KeysShrink(before, remaining, layer[0]);
  }

  /** Layer `k` lists, once each, the nodes removed in round `k`. */
  ghost predicate IsLayer(g: Graph, layer: seq<nat>, k: nat) {
    layer != [] && NoDuplicates(layer) && forall v :: v in layer <==> v in Remaining(g, k) && v !in Remaining(g, k + 1)
  }

  lemma ZerosAreTheLayer(g: Graph, remaining: map<nat, nat>, layer: seq<nat>, k: nat)
    requires remaining.Keys == Remaining(g, k) && Counts(g, remaining.Keys, remaining)
    requires NoDuplicates(layer) && forall v :: v in layer <==> v in remaining && remaining[v] == 0
    ensures Remaining(g, k + 1) == remaining.Keys - Elements(layer)
    ensures layer != [] ==> IsLayer(g, layer, k)
  {
    var s := Remaining(g, k);
    forall v | v in s
      ensures v in layer <==> !HasSource(g, s, v)
    {
      CountZero(g.edges, s, v);
    }
  }

  /** The layers list, round by round, what is removed until a round removes nothing. */
  ghost predicate IsLayering(g: Graph, layers: seq<seq<nat>>) {
    && (forall k :: 0 <= k < |layers| ==> IsLayer(g, layers[k], k))
    && Remaining(g, |layers|) == Remaining(g, |layers| + 1)
  }

  ghost predicate InLayer(layers: seq<seq<nat>>, v: nat, k: nat) {
    k < |layers| && v in layers[k]
  }

  /** What a layering means on every multigraph: a node is in layer `k` exactly when its longest
      path has `k` edges, and the nodes in no layer are exactly those reachable from a cycle. */
  lemma LayeringMeaning(g: Graph, layers: seq<seq<nat>>, v: nat)
    requires Valid(g) && IsLayering(g, layers)
    ensures forall k :: InLayer(layers, v, k) <==> LongestPathIs(g, v, k)
    ensures v < g.n ==> ((exists k :: InLayer(layers, v, k)) <==> !FromCycle(g, v))
    ensures v >= g.n ==> forall k :: !InLayer(layers, v, k)
  {
    var m := |layers|;
    forall k: nat
      ensures InLayer(layers, v, k) <==> LongestPathIs(g, v, k)
      ensures InLayer(layers, v, k) ==> !FromCycle(g, v) && v < g.n
    {
      LayerIsLongestPath(g, v, k);
      if k < m {
        assert IsLayer(g, layers[k], k);
        RemainingShrinks(g, 0, k);
        if FromCycle(g, v) {
          FromCycleSurvives(g, v, k + 1);
        }
      } else {
        StuckForever(g, m, k);
        StuckForever(g, m, k + 1);
      }
    }
    StuckIsFromCycle(g, m, v);
    if v < g.n && v !in Remaining(g, m) {
      assert IsNode(g, v);
      var k := RemovedInSomeRound(g, m, v);
      assert IsLayer(g, layers[k], k);
      assert InLayer(layers, v, k);
    }
  }

  lemma {:induction false} RemovedInSomeRound(g: Graph, m: nat, v: nat) returns (k: nat)
    requires v in Remaining(g, 0) && v !in Remaining(g, m)
    ensures k < m && v in Remaining(g, k) && v !in Remaining(g, k + 1)
  {
    if m > 0 && v in Remaining(g, m - 1) {
      k := m - 1;
    } else {
      k := RemovedInSomeRound(g, m - 1, v);
    }
  }

  lemma StuckEmptyIffAcyclic(g: Graph, m: nat)
    requires Valid(g) && Remaining(g, m) == Remaining(g, m + 1)
    ensures Remaining(g, m) == {} <==> Acyclic(g)
  {
    AcyclicMeansNoSurvivors(g);
    if Acyclic(g) {
      forall v
        ensures v !in Remaining(g, m)
      {
        StuckIsFromCycle(g, m, v);
      }
    } else {
      var v :| FromCycle(g, v);
      StuckIsFromCycle(g, m, v);
    }
  }

  method PeelLayers(g: Graph) returns (layers: seq<seq<nat>>, ghost saturated: bool, ghost broke: bool)
    requires Valid(g)
    ensures IsLayering(g, layers)
    ensures broke <==> !Acyclic(g)
    ensures !saturated
  {
    hide Remaining, IsLayer, NoDuplicates, Valid, CountInto, Acyclic, Counts, IsLayering;
    var remaining := InDegrees(g);
    layers, saturated, broke := [], false, false;
    while |remaining| != 0
      invariant remaining.Keys == Remaining(g, |layers|)
      invariant Counts(g, remaining.Keys, remaining)
      invariant forall k :: 0 <= k < |layers| ==> IsLayer(g, layers[k], k)
      invariant !saturated && !broke
      decreases |remaining|
    {
      var layer := CollectZeros(remaining);
      ZerosAreTheLayer(g, remaining, layer, |layers|);
      if layer == [] {
        broke := true;
        assert Elements(layer) == {};
        break;
      }
      ghost var hit;
      remaining, hit := RemoveLayer(g, remaining, layer);
      saturated := saturated || hit;
      layers := layers + [layer];
    }
    PeelingEnds(g, layers, remaining, broke);
  }

  /** When the loop is left, nothing more can be removed. */
  lemma PeelingEnds(g: Graph, layers: seq<seq<nat>>, remaining: map<nat, nat>, broke: bool)
    requires Valid(g) && remaining.Keys == Remaining(g, |layers|)
    requires if broke then |remaining| != 0 && Remaining(g, |layers| + 1) == remaining.Keys else |remaining| == 0
    requires forall k :: 0 <= k < |layers| ==> IsLayer(g, layers[k], k)
    ensures IsLayering(g, layers) && (broke <==> !Acyclic(g))
  {
    hide Remaining, IsLayer, Valid, Acyclic;
    assert |remaining.Keys| == |remaining|;
    RemainingShrinks(g, |layers|, |layers| + 1);
    StuckEmptyIffAcyclic(g, |layers|);
  }

  lemma KeysShrink(before: map<nat, nat>, after: map<nat, nat>, gone: nat)
    requires after.Keys <= before.Keys && gone in before && gone !in after
    ensures |after| < |before|
  {
    CardinalityShrinks(after.Keys, before.Keys, gone);
    assert |after.Keys| == |after| && |before.Keys| == |before|;
  }

  lemma CardinalityShrinks(a: set<nat>, b: set<nat>, gone: nat)
    requires a <= b && gone in b && gone !in a
    ensures |a| < |b|
  {
    CardinalityOfSubset(a, b - {gone});
  }

  lemma {:induction false} CardinalityOfSubset(a: set<nat>, b: set<nat>)
    requires a <= b
    ensures |a| <= |b|
  {
    if a != {} {
      var x :| x in a;
      CardinalityOfSubset(a - {x}, b - {x});
    }
  }
}
