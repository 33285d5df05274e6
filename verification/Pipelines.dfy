/** Building the flow graph of a pipeline and running it layer by layer
    (crates/rspark-pipelines/src/dag.rs:27-49, crates/rspark-pipelines/src/runner.rs:84-123). */
module Pipelines {
  import opened Subsequences
  import opened Layers

  datatype Flow = Flow(name: string, dependsOn: seq<string>)

  datatype SpecError = UnknownFlow(name: string) | Cycle(name: string)

  /** Flows as nodes in declaration order, with the node that each name stands for. */
  datatype Dag = Dag(graph: Graph, nameIndex: map<string, nat>)

  datatype BuildResult = Built(dag: Dag) | Rejected(error: SpecError)

  // ----- what a pipeline declares, by name -----

  ghost predicate HasFlow(flows: seq<Flow>, name: string) {
    exists i :: 0 <= i < |flows| && flows[i].name == name
  }

  /** Some flow called `name` lists `dep` among its dependencies. */
  ghost predicate DependsOn(flows: seq<Flow>, name: string, dep: string) {
    exists i :: 0 <= i < |flows| && flows[i].name == name && dep in flows[i].dependsOn
  }

  /** A closed chain of names, each one a dependency of the next. */
  ghost predicate IsDependencyCycle(flows: seq<Flow>, c: seq<string>) {
    && |c| > 1 && c[0] == c[|c| - 1]
    && forall i :: 0 <= i < |c| - 1 ==> DependsOn(flows, c[i + 1], c[i])
  }

  ghost predicate AllKnown(flows: seq<Flow>) {
    forall name, dep :: DependsOn(flows, name, dep) ==> HasFlow(flows, dep)
  }

  ghost predicate UniqueNames(flows: seq<Flow>) {
    forall i, j :: 0 <= i < j < |flows| ==> flows[i].name != flows[j].name
  }

  // ----- the graph -----

  /** A later flow of the same name takes over the name. */
  ghost predicate IsLast(flows: seq<Flow>, n: nat, name: string) {
    n < |flows| && flows[n].name == name && forall m :: n < m < |flows| ==> flows[m].name != name
  }

  ghost predicate Indexes(flows: seq<Flow>, index: map<string, nat>) {
    && (forall name :: name in index <==> HasFlow(flows, name))
    && (forall name :: name in index ==> IsLast(flows, index[name], name))
  }

  ghost function Node(index: map<string, nat>, name: string): nat {
    if name in index then index[name] else 0
  }

  /** One edge per listed dependency, from the dependency to the flow. */
  ghost function DepEdges(index: map<string, nat>, f: Flow): seq<(nat, nat)> {
    seq(|f.dependsOn|, j requires 0 <= j < |f.dependsOn| => (Node(index, f.dependsOn[j]), Node(index, f.name)))
  }

  ghost function EdgesOf(index: map<string, nat>, flows: seq<Flow>): seq<(nat, nat)> {
    if flows == [] then []
    else EdgesOf(index, flows[..|flows| - 1]) + DepEdges(index, flows[|flows| - 1])
  }

  ghost predicate KnownDeps(index: map<string, nat>, f: Flow) {
    forall j :: 0 <= j < |f.dependsOn| ==> f.dependsOn[j] in index
  }

  /** `dep` is the first name, in declaration order, that the index lacks. */
  ghost predicate FirstUnknown(index: map<string, nat>, flows: seq<Flow>, dep: string) {
    exists i, j :: 0 <= i < |flows| && 0 <= j < |flows[i].dependsOn| && IsFirstUnknown(index, flows, dep, i, j)
  }

  ghost predicate IsFirstUnknown(index: map<string, nat>, flows: seq<Flow>, dep: string, i: nat, j: nat)
    requires i < |flows| && j < |flows[i].dependsOn|
  {
    && dep == flows[i].dependsOn[j] && dep !in index
    && (forall m :: 0 <= m < i ==> KnownDeps(index, flows[m]))
    && (forall m :: 0 <= m < j ==> flows[i].dependsOn[m] in index)
  }

  ghost predicate IsDagOf(flows: seq<Flow>, dag: Dag) {
    && Indexes(flows, dag.nameIndex)
    && dag.graph.n == |flows|
    && dag.graph.edges == EdgesOf(dag.nameIndex, flows)
  }

  /** An edge joins the nodes of a name and of one of its dependencies. */
  lemma {:induction false} EdgeMeaning(index: map<string, nat>, flows: seq<Flow>, u: nat, v: nat)
    ensures (u, v) in EdgesOf(index, flows) <==>
            exists name, dep :: DependsOn(flows, name, dep) && u == Node(index, dep) && v == Node(index, name)
  {
    if flows != [] {
      var init, f := flows[..|flows| - 1], flows[|flows| - 1];
      EdgeMeaning(index, init, u, v);
      if (u, v) in DepEdges(index, f) {
        var j :| 0 <= j < |f.dependsOn| && DepEdges(index, f)[j] == (u, v);
        assert DependsOn(flows, f.name, f.dependsOn[j]);
      }
      forall name, dep
        ensures DependsOn(flows, name, dep) <==> DependsOn(init, name, dep) || (name == f.name && dep in f.dependsOn)
      {
        DependsSnoc(flows, name, dep);
      }
      if dep :| dep in f.dependsOn && u == Node(index, dep) && v == Node(index, f.name) {
        var j :| 0 <= j < |f.dependsOn| && f.dependsOn[j] == dep;
        assert DepEdges(index, f)[j] == (u, v);
      }
    }
  }

  lemma DependsSnoc(flows: seq<Flow>, name: string, dep: string)
    requires flows != []
    ensures var n := |flows| - 1;
            DependsOn(flows, name, dep)
            <==> DependsOn(flows[..n], name, dep) || (name == flows[n].name && dep in flows[n].dependsOn)
  {
    var n := |flows| - 1;
    if DependsOn(flows, name, dep) {
      var i :| 0 <= i < |flows| && flows[i].name == name && dep in flows[i].dependsOn;
      if i < n {
        assert flows[..n][i] == flows[i];
      }
    }
    if DependsOn(flows[..n], name, dep) {
      var i :| 0 <= i < n && flows[..n][i].name == name && dep in flows[..n][i].dependsOn;
      assert flows[i].name == name && dep in flows[i].dependsOn;
    }
  }

  /** With every dependency known, the edges stay inside the graph. */
  lemma DagIsValid(flows: seq<Flow>, dag: Dag)
    requires IsDagOf(flows, dag) && AllKnown(flows)
    ensures Valid(dag.graph)
  {
    forall k | 0 <= k < |dag.graph.edges|
      ensures dag.graph.edges[k].0 < dag.graph.n && dag.graph.edges[k].1 < dag.graph.n
    {
      var (u, v) := dag.graph.edges[k];
      EdgeMeaning(dag.nameIndex, flows, u, v);
      var name, dep :| DependsOn(flows, name, dep) && u == Node(dag.nameIndex, dep) && v == Node(dag.nameIndex, name);
      assert HasFlow(flows, name) && HasFlow(flows, dep);
    }
  }

  lemma GraphCycleIsDependencyCycle(flows: seq<Flow>, dag: Dag, c: seq<nat>) returns (names: seq<string>)
    requires IsDagOf(flows, dag) && AllKnown(flows) && IsCycle(dag.graph, c)
    ensures IsDependencyCycle(flows, names)
    ensures |names| == |c| && forall i :: 0 <= i < |c| ==> c[i] < |flows| && names[i] == flows[c[i]].name
  {
    DagIsValid(flows, dag);
    PathNodes(dag.graph, c);
    names := seq(|c|, i requires 0 <= i < |c| => flows[c[i]].name);
    forall i | 0 <= i < |names| - 1
      ensures DependsOn(flows, names[i + 1], names[i])
    {
      assert HasEdge(dag.graph, c[i], c[i + 1]);
      EdgeMeaning(dag.nameIndex, flows, c[i], c[i + 1]);
      var name, dep :| DependsOn(flows, name, dep)
                       && c[i] == Node(dag.nameIndex, dep) && c[i + 1] == Node(dag.nameIndex, name);
      assert HasFlow(flows, name) && HasFlow(flows, dep);
    }
  }

  lemma DependencyCycleIsGraphCycle(flows: seq<Flow>, dag: Dag, names: seq<string>)
    requires IsDagOf(flows, dag) && IsDependencyCycle(flows, names)
    ensures exists c :: IsCycle(dag.graph, c)
  {
    var c := seq(|names|, i requires 0 <= i < |names| => Node(dag.nameIndex, names[i]));
    assert HasFlow(flows, names[0]) by {
      assert DependsOn(flows, names[|names| - 2 + 1], names[|names| - 2]);
    }
    forall i | 0 <= i < |c| - 1
      ensures HasEdge(dag.graph, c[i], c[i + 1])
    {
      EdgeMeaning(dag.nameIndex, flows, c[i], c[i + 1]);
      assert DependsOn(flows, names[i + 1], names[i]);
    }
    assert IsCycle(dag.graph, c);
  }

  /** The graph has a cycle exactly when the declared dependencies do. */
  lemma CyclesCorrespond(flows: seq<Flow>, dag: Dag)
    requires IsDagOf(flows, dag) && AllKnown(flows)
    ensures Acyclic(dag.graph) <==> forall names :: !IsDependencyCycle(flows, names)
  {
    if c :| IsCycle(dag.graph, c) {
      var chain := GraphCycleIsDependencyCycle(flows, dag, c);
    }
    if names :| IsDependencyCycle(flows, names) {
      DependencyCycleIsGraphCycle(flows, dag, names);
    }
  }

  method BuildIndex(flows: seq<Flow>) returns (index: map<string, nat>)
    ensures Indexes(flows, index)
  {
    index := map[];
    for k := 0 to |flows|
      invariant Indexes(flows[..k], index)
    {
      IndexSnoc(flows[..k], index, flows[k]);
      assert flows[..k + 1] == flows[..k] + [flows[k]];
      index := index[flows[k].name := k];
    }
    assert flows[..|flows|] == flows;
  }

  lemma IndexSnoc(flows: seq<Flow>, index: map<string, nat>, f: Flow)
    requires Indexes(flows, index)
    ensures Indexes(flows + [f], index[f.name := |flows|])
  {
    var after := flows + [f];
    forall name
      ensures HasFlow(after, name) <==> HasFlow(flows, name) || name == f.name
    {
      if HasFlow(flows, name) {
        var i :| 0 <= i < |flows| && flows[i].name == name;
        assert after[i].name == name;
      }
      assert after[|flows|] == f;
    }
    forall name | name in index && name != f.name
      ensures IsLast(after, index[name], name)
    {
      assert IsLast(flows, index[name], name);
    }
  }

  /** Adds the edges of one flow; stops at the first dependency without a node. */
  method LinkFlow(index: map<string, nat>, f: Flow, before: seq<(nat, nat)>)
    returns (edges: seq<(nat, nat)>, bad: nat)
    requires f.name in index
    ensures bad <= |f.dependsOn|
    ensures forall m :: 0 <= m < bad ==> f.dependsOn[m] in index
    ensures bad < |f.dependsOn| ==> f.dependsOn[bad] !in index
    ensures bad == |f.dependsOn| ==> edges == before + DepEdges(index, f)
  {
    edges, bad := before, 0;
    var to := index[f.name];
    while bad < |f.dependsOn|
      invariant bad <= |f.dependsOn|
      invariant forall m :: 0 <= m < bad ==> f.dependsOn[m] in index
      invariant edges == before + DepEdges(index, f)[..bad]
    {
      if f.dependsOn[bad] !in index {
        return;
      }
      edges := edges + [(index[f.dependsOn[bad]], to)];
      bad := bad + 1;
    }
  }

  predicate Layered(layers: seq<seq<nat>>, v: nat) {
    exists k :: 0 <= k < |layers| && v in layers[k]
  }

  lemma LayeredIffNotFromCycle(g: Graph, layers: seq<seq<nat>>, v: nat)
    requires Valid(g) && IsLayering(g, layers)
    ensures v < g.n ==> (Layered(layers, v) <==> !FromCycle(g, v))
    ensures FromCycle(g, v) ==> v < g.n
  {
    LayeringMeaning(g, layers, v);
    if k :| 0 <= k < |layers| && v in layers[k] {
      assert InLayer(layers, v, k);
    }
    if FromCycle(g, v) {
      FromCycleSurvives(g, v, 0);
    }
  }

  /** A topological sort succeeds exactly on acyclic graphs; only that outcome is used. */
  method Toposort(g: Graph) returns (ok: bool)
    requires Valid(g)
    ensures ok <==> Acyclic(g)
  {
    var layers, saturated, broke := PeelLayers(g);
    ok := forall v :: 0 <= v < g.n ==> Layered(layers, v);
    AcyclicMeansNoSurvivors(g);
    forall v: nat
      ensures v < g.n ==> (Layered(layers, v) <==> !FromCycle(g, v))
      ensures FromCycle(g, v) ==> v < g.n
    {
      LayeredIffNotFromCycle(g, layers, v);
    }
  }

  ghost predicate OnCycle(g: Graph, v: nat) {
    exists c :: IsCycle(g, c) && v in c
  }

  /** Which node a failed topological sort reports: one that is on a cycle. */
  ghost predicate NamesCycles(culprit: Graph -> nat) {
    forall g :: Valid(g) && !Acyclic(g) ==> OnCycle(g, culprit(g))
  }

  /** The reported node's flow is part of a dependency cycle. */
  lemma CulpritIsOnDependencyCycle(flows: seq<Flow>, dag: Dag, v: nat)
    requires IsDagOf(flows, dag) && AllKnown(flows) && OnCycle(dag.graph, v)
    ensures v < |flows| && exists names :: IsDependencyCycle(flows, names) && flows[v].name in names
  {
    var c :| IsCycle(dag.graph, c) && v in c;
    var names := GraphCycleIsDependencyCycle(flows, dag, c);
    var i :| 0 <= i < |c| && c[i] == v;
    assert names[i] == flows[v].name;
  }

  lemma UnknownMeansNotAllKnown(flows: seq<Flow>, index: map<string, nat>, i: nat, j: nat)
    requires Indexes(flows, index) && i < |flows| && j < |flows[i].dependsOn| && flows[i].dependsOn[j] !in index
    requires forall m :: 0 <= m < i ==> KnownDeps(index, flows[m])
    requires forall m :: 0 <= m < j ==> flows[i].dependsOn[m] in index
    ensures !AllKnown(flows)
    ensures FirstUnknown(index, flows, flows[i].dependsOn[j])
  {
    assert IsFirstUnknown(index, flows, flows[i].dependsOn[j], i, j);
    assert DependsOn(flows, flows[i].name, flows[i].dependsOn[j]);
  }

  lemma KnownDepsMeansAllKnown(flows: seq<Flow>, index: map<string, nat>)
    requires Indexes(flows, index) && forall m :: 0 <= m < |flows| ==> KnownDeps(index, flows[m])
    ensures AllKnown(flows)
  {
    forall name, dep | DependsOn(flows, name, dep)
      ensures HasFlow(flows, dep)
    {
      var i :| 0 <= i < |flows| && flows[i].name == name && dep in flows[i].dependsOn;
      assert KnownDeps(index, flows[i]);
    }
  }

  /** A pipeline is rejected for its first unknown dependency, else for a dependency cycle,
      and otherwise gives the graph of its dependencies. */
  method FromPipeline(flows: seq<Flow>, culprit: Graph -> nat) returns (r: BuildResult)
    requires NamesCycles(culprit)
    ensures AllKnown(flows) <==> !(r.Rejected? && r.error.UnknownFlow?)
    ensures r.Rejected? && r.error.UnknownFlow? ==>
      exists index :: Indexes(flows, index) && FirstUnknown(index, flows, r.error.name)
    ensures r.Rejected? && r.error.Cycle? <==> AllKnown(flows) && exists c :: IsDependencyCycle(flows, c)
    ensures r.Rejected? && r.error.Cycle? ==> exists c :: IsDependencyCycle(flows, c) && r.error.name in c
    ensures r.Built? ==> IsDagOf(flows, r.dag) && Valid(r.dag.graph) && Acyclic(r.dag.graph)
  {
    hide AllKnown, Acyclic, Valid, FirstUnknown, IsDependencyCycle, IsLast, OnCycle;
    var index := BuildIndex(flows);
    var edges := [];
    for k := 0 to |flows|
      invariant forall m :: 0 <= m < k ==> KnownDeps(index, flows[m])
      invariant edges == EdgesOf(index, flows[..k])
    {
      assert HasFlow(flows, flows[k].name);
      var bad;
      edges, bad := LinkFlow(index, flows[k], edges);
      if bad < |flows[k].dependsOn| {
        UnknownMeansNotAllKnown(flows, index, k, bad);
        return Rejected(UnknownFlow(flows[k].dependsOn[bad]));
      }
      assert flows[..k + 1][..k] == flows[..k];
    }
    assert flows[..|flows|] == flows;
    KnownDepsMeansAllKnown(flows, index);
    var dag := Dag(Graph(|flows|, edges), index);
    DagIsValid(flows, dag);
    CyclesCorrespond(flows, dag);
    var sorted := Toposort(dag.graph);
    if sorted {
      return Built(dag);
    }
    CulpritIsOnDependencyCycle(flows, dag, culprit(dag.graph));
    r := Rejected(Cycle(flows[culprit(dag.graph)].name));
  }

  // ----- running -----

  datatype Outcome = Finished(rows: nat) | Broken(message: string)

  datatype RunStats = RunStats(flow: string, rowCount: nat)

  datatype Report = Report(flows: seq<RunStats>, errors: seq<string>)

  /** What running a flow yields may depend on the flows attempted before it. */
  type Outcomes = (seq<nat>, Flow) -> Outcome

  function FailureMessage(f: Flow, message: string): string {
    "flow '" + f.name + "' failed: " + message
  }

  /** The report of attempting the listed flows in this order. */
  ghost function ReportOf(flows: seq<Flow>, attempts: seq<nat>, run: Outcomes): Report
    requires forall p :: 0 <= p < |attempts| ==> attempts[p] < |flows|
  {
    if attempts == [] then Report([], [])
    else
      var n := |attempts| - 1;
      var f, before := flows[attempts[n]], ReportOf(flows, attempts[..n], run);
      match run(attempts[..n], f)
      case Finished(rows) => before.(flows := before.flows + [RunStats(f.name, rows)])
      case Broken(message) => before.(errors := before.errors + [FailureMessage(f, message)])
  }

  /** Every attempt leaves exactly one entry in the report. */
  lemma {:induction false} ReportCounts(flows: seq<Flow>, attempts: seq<nat>, run: Outcomes)
    requires forall p :: 0 <= p < |attempts| ==> attempts[p] < |flows|
    ensures var r := ReportOf(flows, attempts, run); |r.flows| + |r.errors| == |attempts|
  {
    if attempts != [] {
      ReportCounts(flows, attempts[..|attempts| - 1], run);
    }
  }

  ghost predicate InRange(flows: seq<Flow>, attempts: seq<nat>) {
    forall p :: 0 <= p < |attempts| ==> attempts[p] < |flows|
  }

  /** What the `p`-th attempt yielded. */
  ghost function OutcomeAt(flows: seq<Flow>, attempts: seq<nat>, run: Outcomes, p: nat): Outcome
    requires InRange(flows, attempts) && p < |attempts|
  {
    run(attempts[..p], flows[attempts[p]])
  }

  /** Which attempts finished. */
  ghost function Completed(flows: seq<Flow>, attempts: seq<nat>, run: Outcomes): (flags: seq<bool>)
    requires InRange(flows, attempts)
    ensures |flags| == |attempts|
    ensures forall p :: 0 <= p < |attempts| ==> flags[p] == OutcomeAt(flows, attempts, run, p).Finished?
  {
    seq(|attempts|, p requires 0 <= p < |attempts| => OutcomeAt(flows, attempts, run, p).Finished?)
  }

  ghost function Others(flags: seq<bool>): (others: seq<bool>)
    ensures |others| == |flags| && forall p :: 0 <= p < |flags| ==> others[p] == !flags[p]
  {
    seq(|flags|, p requires 0 <= p < |flags| => !flags[p])
  }

  /** The listed statistics are those of the attempts at the listed positions. */
  ghost predicate StatsAre(flows: seq<Flow>, attempts: seq<nat>, run: Outcomes, at: seq<nat>, stats: seq<RunStats>)
    requires InRange(flows, attempts)
  {
    && |stats| == |at|
    && forall k :: 0 <= k < |at| ==>
         && at[k] < |attempts|
         && stats[k].flow == flows[attempts[at[k]]].name
         && OutcomeAt(flows, attempts, run, at[k]) == Finished(stats[k].rowCount)
  }

  ghost predicate ErrorsAre(flows: seq<Flow>, attempts: seq<nat>, run: Outcomes, at: seq<nat>, errors: seq<string>)
    requires InRange(flows, attempts)
  {
    && |errors| == |at|
    && forall k :: 0 <= k < |at| ==>
         && at[k] < |attempts|
         && var outcome := OutcomeAt(flows, attempts, run, at[k]);
            outcome.Broken? &&
                errors[k] == "flow '" + flows[attempts[at[k]]].name + "' failed: " + outcome.message
  }

  lemma StatsStay(flows: seq<Flow>, attempts: seq<nat>, run: Outcomes, at: seq<nat>, stats: seq<RunStats>,
                  errors: seq<string>, n: nat)
    requires InRange(flows, attempts) && n <= |attempts|
    ensures StatsAre(flows, attempts[..n], run, at, stats) ==> StatsAre(flows, attempts, run, at, stats)
    ensures ErrorsAre(flows, attempts[..n], run, at, errors) ==> ErrorsAre(flows, attempts, run, at, errors)
  {
    assert forall p :: 0 <= p < n ==> attempts[..n][..p] == attempts[..p];
  }

  /** The report lists, in order of attempt, the finished flows with their row counts, and the broken ones with their
      messages: a flow is listed as run if and only if its attempt finished, and as an error otherwise. */
  lemma {:induction false} ReportIs(flows: seq<Flow>, attempts: seq<nat>, run: Outcomes)
    requires InRange(flows, attempts)
    ensures var r, ok := ReportOf(flows, attempts, run), Completed(flows, attempts, run);
      && StatsAre(flows, attempts, run, Positions(ok), r.flows)
      && ErrorsAre(flows, attempts, run, Positions(Others(ok)), r.errors)
  {
    if attempts != [] {
      var n := |attempts| - 1;
      ReportIs(flows, attempts[..n], run);
      var before, ok := ReportOf(flows, attempts[..n], run), Completed(flows, attempts, run);
      assert forall p :: 0 <= p < n ==> attempts[..n][..p] == attempts[..p];
      assert ok[..n] == Completed(flows, attempts[..n], run);
      assert Others(ok)[..n] == Others(ok[..n]);
      StatsStay(flows, attempts, run, Positions(ok[..n]), before.flows, before.errors, n);
      StatsStay(flows, attempts, run, Positions(Others(ok[..n])), before.flows, before.errors, n);
    }
  }

  /** In a good run, a flow's name and row count are listed if and only if its attempt finished with that count. */
  lemma ListedIffFinished(flows: seq<Flow>, attempts: seq<nat>, run: Outcomes, p: nat, rows: nat)
    requires InRange(flows, attempts) && GoodRun(flows, attempts) && p < |attempts|
    ensures RunStats(flows[attempts[p]].name, rows) in ReportOf(flows, attempts, run).flows
       <==> OutcomeAt(flows, attempts, run, p) == Finished(rows)
  {
    hide ReportOf, InOrder, IsFirst;
    ReportIs(flows, attempts, run);
    var ok, stats := Completed(flows, attempts, run), ReportOf(flows, attempts, run).flows;
    var at, entry := Positions(ok), RunStats(flows[attempts[p]].name, rows);
    PositionsExact(ok);
    if entry in stats {
      var k :| 0 <= k < |stats| && stats[k] == entry;
      assert at[k] == p;
    }
    if OutcomeAt(flows, attempts, run, p) == Finished(rows) {
      assert p in at;
      var k :| 0 <= k < |at| && at[k] == p;
      assert stats[k] == entry;
    }
  }

  ghost predicate IsFirst(flows: seq<Flow>, i: nat) {
    i < |flows| && forall m :: 0 <= m < i ==> flows[m].name != flows[i].name
  }

  /** A flow called `name` is among the first `p` attempts. */
  ghost predicate AttemptedBefore(flows: seq<Flow>, attempts: seq<nat>, p: nat, name: string) {
    exists q :: 0 <= q < p <= |attempts| && attempts[q] < |flows| && flows[attempts[q]].name == name
  }

  /** Attempt `p` comes after an attempt for each dependency declared under its name. */
  ghost predicate InOrder(flows: seq<Flow>, attempts: seq<nat>, p: nat)
    requires p < |attempts| && attempts[p] < |flows|
  {
    forall dep :: DependsOn(flows, flows[attempts[p]].name, dep) ==> AttemptedBefore(flows, attempts, p, dep)
  }

  /** Each attempt is of the first flow of its name, no name is attempted twice, and
      dependencies come first. */
  ghost predicate GoodRun(flows: seq<Flow>, attempts: seq<nat>) {
    && (forall p :: 0 <= p < |attempts| ==> IsFirst(flows, attempts[p]))
    && (forall p, q :: 0 <= p < q < |attempts| ==> flows[attempts[p]].name != flows[attempts[q]].name)
    && (forall p :: 0 <= p < |attempts| ==> InOrder(flows, attempts, p))
  }

  /** Every declared name is attempted. */
  ghost predicate CoversAll(flows: seq<Flow>, attempts: seq<nat>) {
    forall i :: 0 <= i < |flows| ==> AttemptedBefore(flows, attempts, |attempts|, flows[i].name)
  }

  /** The names attempted so far are exactly those whose node was visited. */
  ghost predicate Tracks(flows: seq<Flow>, index: map<string, nat>, visited: set<nat>, attempts: seq<nat>) {
    forall name :: name in index ==> (AttemptedBefore(flows, attempts, |attempts|, name) <==> index[name] in visited)
  }

  lemma AttemptedSnoc(flows: seq<Flow>, attempts: seq<nat>, i: nat, name: string)
    requires i < |flows|
    ensures AttemptedBefore(flows, attempts + [i], |attempts| + 1, name)
       <==> AttemptedBefore(flows, attempts, |attempts|, name) || name == flows[i].name
    ensures forall p: nat :: p <= |attempts| ==>
      (AttemptedBefore(flows, attempts + [i], p, name) <==> AttemptedBefore(flows, attempts, p, name))
  {
    var after := attempts + [i];
    assert after[|attempts|] == i;
    forall p: nat | p <= |attempts|
      ensures AttemptedBefore(flows, after, p, name) <==> AttemptedBefore(flows, attempts, p, name)
    {
      if q :| 0 <= q < p && attempts[q] < |flows| && flows[attempts[q]].name == name {
        assert after[q] == attempts[q];
      }
      if q :| 0 <= q < p && after[q] < |flows| && flows[after[q]].name == name {
        assert after[q] == attempts[q];
      }
    }
    if AttemptedBefore(flows, after, |attempts| + 1, name) {
      var q :| 0 <= q < |attempts| + 1 && after[q] < |flows| && flows[after[q]].name == name;
      if q < |attempts| {
        assert after[q] == attempts[q];
      }
    }
    if AttemptedBefore(flows, attempts, |attempts|, name) {
      var q :| 0 <= q < |attempts| && attempts[q] < |flows| && flows[attempts[q]].name == name;
      assert after[q] == attempts[q];
    }
  }

  /** Attempting the first flow of a fresh name whose dependencies were attempted keeps the run good. */
  lemma GoodRunSnoc(flows: seq<Flow>, attempts: seq<nat>, i: nat)
    requires GoodRun(flows, attempts) && IsFirst(flows, i)
    requires !AttemptedBefore(flows, attempts, |attempts|, flows[i].name)
    requires forall dep :: DependsOn(flows, flows[i].name, dep) ==> AttemptedBefore(flows, attempts, |attempts|, dep)
    ensures GoodRun(flows, attempts + [i])
  {
    hide DependsOn;
    var after := attempts + [i];
    forall p | 0 <= p < |after|
      ensures IsFirst(flows, after[p]) && after[p] < |flows|
    {
      assert p < |attempts| ==> IsFirst(flows, attempts[p]);
    }
    forall p, q | 0 <= p < q < |after|
      ensures flows[after[p]].name != flows[after[q]].name
    {
      assert p < |attempts| && after[p] == attempts[p];
    }
    forall p | 0 <= p < |after|
      ensures InOrder(flows, after, p)
    {
      assert p < |attempts| ==> InOrder(flows, attempts, p);
      forall dep
        ensures AttemptedBefore(flows, after, p, dep) <==> AttemptedBefore(flows, attempts, p, dep)
      {
        AttemptedSnoc(flows, attempts, i, dep);
      }
    }
  }

  /** The nodes of the first `k` layers. */
  ghost function Seen(layers: seq<seq<nat>>, k: nat): set<nat>
    requires k <= |layers|
  {
    if k == 0 then {} else Seen(layers, k - 1) + Elements(layers[k - 1])
  }

  lemma {:induction false} SeenMeans(layers: seq<seq<nat>>, k: nat, v: nat)
    requires k <= |layers|
    ensures v in Seen(layers, k) <==> exists j: nat :: j < k && InLayer(layers, v, j)
  {
    if k > 0 {
      SeenMeans(layers, k - 1, v);
      if v in layers[k - 1] {
        assert InLayer(layers, v, k - 1);
      }
    }
  }

  /** Both ends of an edge of a layered acyclic graph: the source is in an earlier layer. */
  lemma EdgeCrossesLayers(g: Graph, layers: seq<seq<nat>>, u: nat, v: nat, k: nat)
    requires Valid(g) && Acyclic(g) && IsLayering(g, layers) && HasEdge(g, u, v)
    requires InLayer(layers, v, k)
    ensures u in Seen(layers, k)
  {
    AcyclicMeansNoSurvivors(g);
    EdgeTarget(g, u, v);
    LayeringMeaning(g, layers, u);
    var j: nat :| InLayer(layers, u, j);
    LayeringMeaning(g, layers, v);
    assert IsLayer(g, layers[j], j) && IsLayer(g, layers[k], k);
    if j >= k {
      RemainingShrinks(g, k, j);
    }
    SeenMeans(layers, k, u);
  }

  /** No node of layer `k` occurs in an earlier layer. */
  lemma LayersDisjoint(g: Graph, layers: seq<seq<nat>>, v: nat, k: nat)
    requires Valid(g) && IsLayering(g, layers) && InLayer(layers, v, k)
    ensures v !in Seen(layers, k)
  {
    SeenMeans(layers, k, v);
    assert IsLayer(g, layers[k], k);
    if j: nat :| j < k && InLayer(layers, v, j) {
      assert IsLayer(g, layers[j], j);
      RemainingShrinks(g, j + 1, k);
    }
  }

  lemma AllSeen(g: Graph, layers: seq<seq<nat>>, v: nat)
    requires Valid(g) && Acyclic(g) && IsLayering(g, layers) && v < g.n
    ensures v in Seen(layers, |layers|)
  {
    AcyclicMeansNoSurvivors(g);
    LayeringMeaning(g, layers, v);
    var k: nat :| InLayer(layers, v, k);
    SeenMeans(layers, |layers|, v);
  }

  /** The first flow whose name stands for node `v`, if any. */
  method FindFlow(flows: seq<Flow>, index: map<string, nat>, v: nat) returns (i: nat)
    requires Indexes(flows, index)
    ensures i <= |flows|
    ensures i < |flows| ==> IsFirst(flows, i) && flows[i].name in index && index[flows[i].name] == v
    ensures i == |flows| ==> forall name :: name in index ==> index[name] != v
  {
    i := 0;
    while i < |flows|
      invariant i <= |flows|
      invariant forall m :: 0 <= m < i ==> !(flows[m].name in index && index[flows[m].name] == v)
    {
      if flows[i].name in index && index[flows[i].name] == v {
        return;
      }
      i := i + 1;
    }
    forall name | name in index
      ensures index[name] != v
    {
      assert IsLast(flows, index[name], name);
    }
  }

  lemma TracksSkip(flows: seq<Flow>, index: map<string, nat>, visited: set<nat>, attempts: seq<nat>, v: nat)
    requires Tracks(flows, index, visited, attempts) && forall name :: name in index ==> index[name] != v
    ensures Tracks(flows, index, visited + {v}, attempts)
  {
  }

  lemma TracksAttempt(flows: seq<Flow>, index: map<string, nat>, visited: set<nat>, attempts: seq<nat>, i: nat)
    requires Indexes(flows, index) && Tracks(flows, index, visited, attempts)
    requires i < |flows| && flows[i].name in index
    ensures Tracks(flows, index, visited + {index[flows[i].name]}, attempts + [i])
  {
    var v := index[flows[i].name];
    forall name | name in index
      ensures AttemptedBefore(flows, attempts + [i], |attempts| + 1, name) <==> index[name] in visited + {v}
    {
      AttemptedSnoc(flows, attempts, i, name);
      assert IsLast(flows, index[name], name) && IsLast(flows, v, flows[i].name);
    }
  }

  /** The dependencies of the name standing for a node of layer `k` were all attempted. */
  lemma DependenciesAttempted(flows: seq<Flow>, dag: Dag, layers: seq<seq<nat>>, visited: set<nat>, attempts: seq<nat>,
                              name: string, k: nat)
    requires IsDagOf(flows, dag) && AllKnown(flows) && Acyclic(dag.graph) && IsLayering(dag.graph, layers)
    requires name in dag.nameIndex && InLayer(layers, dag.nameIndex[name], k)
    requires Seen(layers, k) <= visited && Tracks(flows, dag.nameIndex, visited, attempts)
    ensures forall dep :: DependsOn(flows, name, dep) ==> AttemptedBefore(flows, attempts, |attempts|, dep)
  {
    DagIsValid(flows, dag);
    forall dep | DependsOn(flows, name, dep)
      ensures AttemptedBefore(flows, attempts, |attempts|, dep)
    {
      assert HasFlow(flows, dep);
      var u, v := dag.nameIndex[dep], dag.nameIndex[name];
      EdgeMeaning(dag.nameIndex, flows, u, v);
      EdgeCrossesLayers(dag.graph, layers, u, v, k);
    }
  }

  /** What holds while the nodes are visited one by one. */
  ghost predicate Progress(flows: seq<Flow>, dag: Dag, visited: set<nat>, attempts: seq<nat>) {
    GoodRun(flows, attempts) && Tracks(flows, dag.nameIndex, visited, attempts)
  }

  lemma ProgressAttempt(flows: seq<Flow>, dag: Dag, layers: seq<seq<nat>>, visited: set<nat>, attempts: seq<nat>,
                        i: nat, k: nat)
    requires IsDagOf(flows, dag) && AllKnown(flows) && Acyclic(dag.graph) && IsLayering(dag.graph, layers)
    requires k < |layers| && Progress(flows, dag, visited, attempts) && Seen(layers, k) <= visited
    requires IsFirst(flows, i) && flows[i].name in dag.nameIndex
    requires dag.nameIndex[flows[i].name] !in visited && InLayer(layers, dag.nameIndex[flows[i].name], k)
    ensures Progress(flows, dag, visited + {dag.nameIndex[flows[i].name]}, attempts + [i])
  {
    DependenciesAttempted(flows, dag, layers, visited, attempts, flows[i].name, k);
    GoodRunSnoc(flows, attempts, i);
    TracksAttempt(flows, dag.nameIndex, visited, attempts, i);
  }

  /** Attempts one flow and files its outcome. */
  method Attempt(flows: seq<Flow>, i: nat, before: Report, attempts: seq<nat>, run: Outcomes) returns (report: Report)
    requires i < |flows| && forall p :: 0 <= p < |attempts| ==> attempts[p] < |flows|
    requires before == ReportOf(flows, attempts, run)
    ensures report == ReportOf(flows, attempts + [i], run)
  {
    assert (attempts + [i])[..|attempts|] == attempts;
    match run(attempts, flows[i])
    case Finished(rows) => report := before.(flows := before.flows + [RunStats(flows[i].name, rows)]);
    case Broken(message) => report := before.(errors := before.errors + [FailureMessage(flows[i], message)]);
  }

  /** Visits the nodes of layer `k`. */
  method RunLayer(flows: seq<Flow>, dag: Dag, ghost layers: seq<seq<nat>>, k: nat, layer: seq<nat>, before: Report,
                  done: seq<nat>, run: Outcomes)
    returns (report: Report, attempts: seq<nat>)
    requires IsDagOf(flows, dag) && AllKnown(flows) && Acyclic(dag.graph) && IsLayering(dag.graph, layers)
    requires k < |layers| && layer == layers[k]
    requires Progress(flows, dag, Seen(layers, k), done) && before == ReportOf(flows, done, run)
    ensures Progress(flows, dag, Seen(layers, k + 1), attempts) && report == ReportOf(flows, attempts, run)
  {
    hide AllKnown, Tracks;
    DagIsValid(flows, dag);
    report, attempts := before, done;
    ghost var visited := Seen(layers, k);
    assert IsLayer(dag.graph, layer, k);
    for j := 0 to |layer|
      invariant visited == Seen(layers, k) + Elements(layer[..j])
      invariant Progress(flows, dag, visited, attempts) && report == ReportOf(flows, attempts, run)
    {
      var i := FindFlow(flows, dag.nameIndex, layer[j]);
      if i < |flows| {
        assert InLayer(layers, layer[j], k);
        LayersDisjoint(dag.graph, layers, layer[j], k);
        ProgressAttempt(flows, dag, layers, visited, attempts, i, k);
        report := Attempt(flows, i, report, attempts, run);
        attempts := attempts + [i];
      } else {
        TracksSkip(flows, dag.nameIndex, visited, attempts, layer[j]);
      }
      visited := visited + {layer[j]};
      assert layer[..j + 1] == layer[..j] + [layer[j]];
    }
    assert layer[..|layer|] == layer;
  }

  /** Running a pipeline: rejected specifications run nothing; otherwise the attempts are a good
      run over every declared name and the report holds one entry per attempt. */
  method Run(flows: seq<Flow>, run: Outcomes, culprit: Graph -> nat)
    returns (r: BuildResult, report: Report, attempts: seq<nat>)
    requires NamesCycles(culprit)
    ensures r.Built? <==> AllKnown(flows) && forall c :: !IsDependencyCycle(flows, c)
    ensures r.Rejected? ==> attempts == []
    ensures r.Built? ==> GoodRun(flows, attempts) && CoversAll(flows, attempts)
    ensures forall p :: 0 <= p < |attempts| ==> attempts[p] < |flows|
    ensures report == ReportOf(flows, attempts, run)
  {
    hide GoodRun, Tracks, IsLayering, AllKnown, Seen, Acyclic;
    r := FromPipeline(flows, culprit);
    report, attempts := Report([], []), [];
    if r.Built? {
      var dag := r.dag;
      var layers, saturated, broke := PeelLayers(dag.graph);
      ProgressStarts(flows, dag, layers);
      for k := 0 to |layers|
        invariant forall p :: 0 <= p < |attempts| ==> attempts[p] < |flows|
        invariant Progress(flows, dag, Seen(layers, k), attempts) && report == ReportOf(flows, attempts, run)
      {
        report, attempts := RunLayer(flows, dag, layers, k, layers[k], report, attempts, run);
        GoodRunInRange(flows, attempts);
      }
      RunCovers(flows, dag, layers, attempts);
    }
  }

  lemma ProgressStarts(flows: seq<Flow>, dag: Dag, layers: seq<seq<nat>>)
    ensures Progress(flows, dag, Seen(layers, 0), [])
  {
  }

  lemma GoodRunInRange(flows: seq<Flow>, attempts: seq<nat>)
    requires GoodRun(flows, attempts)
    ensures forall p :: 0 <= p < |attempts| ==> attempts[p] < |flows|
  {
  }

  lemma RunCovers(flows: seq<Flow>, dag: Dag, layers: seq<seq<nat>>, attempts: seq<nat>)
    requires IsDagOf(flows, dag) && Valid(dag.graph) && Acyclic(dag.graph) && IsLayering(dag.graph, layers)
    requires Tracks(flows, dag.nameIndex, Seen(layers, |layers|), attempts)
    ensures CoversAll(flows, attempts)
  {
    forall i | 0 <= i < |flows|
      ensures AttemptedBefore(flows, attempts, |attempts|, flows[i].name)
    {
      var name := flows[i].name;
      assert HasFlow(flows, name);
      assert IsLast(flows, dag.nameIndex[name], name);
      AllSeen(dag.graph, layers, dag.nameIndex[name]);
    }
  }

  /** Which flows a complete good run attempts: the first one of each name. So it attempts all of them exactly
      when no name is declared twice. */
  lemma RunAttemptsFirsts(flows: seq<Flow>, attempts: seq<nat>)
    requires GoodRun(flows, attempts) && CoversAll(flows, attempts)
    ensures forall i :: 0 <= i < |flows| ==> (i in attempts <==> IsFirst(flows, i))
    ensures (forall i :: 0 <= i < |flows| ==> i in attempts) <==> UniqueNames(flows)
  {
    forall i | 0 <= i < |flows|
      ensures i in attempts <==> IsFirst(flows, i)
    {
      if IsFirst(flows, i) {
        var q :| 0 <= q < |attempts| && attempts[q] < |flows| && flows[attempts[q]].name == flows[i].name;
        assert IsFirst(flows, attempts[q]);
      }
    }
    if forall i :: 0 <= i < |flows| ==> i in attempts {
      forall i, j | 0 <= i < j < |flows|
        ensures flows[i].name != flows[j].name
      {
        assert j in attempts;
      }
    }
  }

  /** With unique names a complete good run attempts every flow exactly once, each after the
      flows it depends on, and reports as many entries as there are flows. */
  lemma UniqueNamesRunOnce(flows: seq<Flow>, attempts: seq<nat>, run: Outcomes)
    requires UniqueNames(flows) && GoodRun(flows, attempts) && CoversAll(flows, attempts)
    ensures |attempts| == |flows|
    ensures forall i :: 0 <= i < |flows| ==> i in attempts
    ensures forall p, q :: 0 <= p < q < |attempts| ==> attempts[p] != attempts[q]
    ensures forall p, i :: 0 <= p < |attempts| && 0 <= i < |flows| && flows[i].name in flows[attempts[p]].dependsOn ==>
              i in attempts[..p]
    ensures var r := ReportOf(flows, attempts, run); |r.flows| + |r.errors| == |flows|
  {
    forall i | 0 <= i < |flows|
      ensures i in attempts
    {
      var p := AttemptOf(flows, attempts, |attempts|, i);
    }
    forall p, i | 0 <= p < |attempts| && 0 <= i < |flows| && flows[i].name in flows[attempts[p]].dependsOn
      ensures i in attempts[..p]
    {
      assert InOrder(flows, attempts, p);
      assert DependsOn(flows, flows[attempts[p]].name, flows[i].name);
      var q := AttemptOf(flows, attempts, p, i);
      assert attempts[..p][q] == i;
    }
    PermutationLength(attempts, |flows|);
    ReportCounts(flows, attempts, run);
  }

  lemma AttemptOf(flows: seq<Flow>, attempts: seq<nat>, p: nat, i: nat) returns (q: nat)
    requires UniqueNames(flows) && i < |flows| && AttemptedBefore(flows, attempts, p, flows[i].name)
    ensures q < p <= |attempts| && attempts[q] == i
  {
    q :| 0 <= q < p && attempts[q] < |flows| && flows[attempts[q]].name == flows[i].name;
  }

  /** A duplicate-free list of exactly the numbers below `n` has length `n`. */
  lemma PermutationLength(xs: seq<nat>, n: nat)
    requires NoDuplicates(xs) && (forall p :: 0 <= p < |xs| ==> xs[p] < n)
    requires forall i :: 0 <= i < n ==> i in xs
    ensures |xs| == n
  {
    if |xs| > n {
      Pigeonhole(n, xs);
    }
    MembersCount(xs);
    BelowCount(n, Elements(xs));
  }

  lemma {:induction false} MembersCount(xs: seq<nat>)
    ensures |Elements(xs)| <= |xs|
  {
    if xs != [] {
      var init := xs[..|xs| - 1];
      MembersCount(init);
      assert Elements(xs) == Elements(init) + {xs[|xs| - 1]};
    }
  }

  lemma {:induction false} BelowCount(n: nat, s: set<nat>)
    requires forall i :: 0 <= i < n ==> i in s
    ensures |s| >= n
  {
    if n > 0 {
      BelowCount(n - 1, s - {n - 1});
    }
  }
}
