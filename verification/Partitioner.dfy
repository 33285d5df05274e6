/** Splitting a plan into partition tasks (crates/rspark-cluster/src/partitioner.rs). */
module Partitioner {
  import opened Values
  import opened Plans

  datatype PartitionSpec = PartitionSpec(index: nat, labelText: string)

  function PartitionLabel(path: string, partition: nat): string {
    "scan[" + path + "]:p" + NatToString(partition)
  }

  /** The paths of the scans of a plan, from left to right. */
  function ScanPaths(p: Plan): seq<string>
    decreases p, 1, 0
  {
    match p
    case Scan(_, path, _, _) => [path]
    case Project(input, _, _) => ScanPaths(input)
    case Filter(input, _, _) => ScanPaths(input)
    case Aggregation(input, _, _, _) => ScanPaths(input)
    case Sort(input, _, _) => ScanPaths(input)
    case Limit(input, _, _) => ScanPaths(input)
    case Distinct(input, _) => ScanPaths(input)
    case Join(left, right, _, _, _) => ScanPaths(left) + ScanPaths(right)
    case Union(inputs, _) => UnionPaths(p, |inputs|)
    case Empty => []
  }

  function UnionPaths(p: Plan, n: nat): seq<string>
    requires p.Union? && n <= |p.inputs|
    decreases p, 0, n
  {
    if n == 0 then [] else UnionPaths(p, n - 1) + ScanPaths(p.inputs[n - 1])
  }

  function ScanLabels(path: string, parallelism: nat): seq<string> {
    seq(parallelism, k requires 0 <= k < parallelism => PartitionLabel(path, k))
  }

  /** The partitions of each path in turn. */
  function LabelsOf(paths: seq<string>, parallelism: nat): seq<string> {
    if paths == [] then []
    else LabelsOf(paths[..|paths| - 1], parallelism) + ScanLabels(paths[|paths| - 1], parallelism)
  }

  /** The labels of a planned job: never empty, because a plan without partitions gets a stand-in. */
  function PlannedLabels(p: Plan, parallelism: nat): (labels: seq<string>)
    ensures labels != []
  {
    var labels := LabelsOf(ScanPaths(p), parallelism);
    if labels == [] then ["no-input"] else labels
  }

  lemma {:induction false} LabelsAppend(a: seq<string>, b: seq<string>, parallelism: nat)
    ensures LabelsOf(a + b, parallelism) == LabelsOf(a, parallelism) + LabelsOf(b, parallelism)
  {
    if b == [] {
      assert a + b == a;
    } else {
      var n := |b| - 1;
      LabelsAppend(a, b[..n], parallelism);
      assert (a + b)[..|a + b| - 1] == a + b[..n];
    }
  }

  /** Scan `i` contributes its `parallelism` partitions right after those of the scans before it. */
  lemma {:induction false} LabelAt(paths: seq<string>, parallelism: nat, i: nat, j: nat)
    requires i < |paths| && j < parallelism
    ensures var at := |LabelsOf(paths[..i], parallelism)| + j;
            at < |LabelsOf(paths, parallelism)| && LabelsOf(paths, parallelism)[at] == PartitionLabel(paths[i], j)
  {
    var n := |paths| - 1;
    if i < n {
      LabelAt(paths[..n], parallelism, i, j);
      assert paths[..n][..i] == paths[..i];
    }
  }

  lemma {:induction false} LabelsLength(paths: seq<string>, parallelism: nat)
    ensures |LabelsOf(paths, parallelism)| == |paths| * parallelism
  {
    if paths != [] {
      var n := |paths| - 1;
      LabelsLength(paths[..n], parallelism);
      OneMore(n, parallelism);
      assert |LabelsOf(paths, parallelism)| == |LabelsOf(paths[..n], parallelism)| + parallelism;
    }
  }

  lemma OneMore(n: nat, k: nat)
    ensures n * k + k == (n + 1) * k
  {
  }

  /** Positions carry their own index; `labels` are the labels in order. */
  ghost predicate Holds(out: seq<PartitionSpec>, labels: seq<string>) {
    |out| == |labels| && forall k :: 0 <= k < |out| ==> out[k] == PartitionSpec(k, labels[k])
  }

  lemma NoLabels(labels: seq<string>, parallelism: nat)
    ensures labels + LabelsOf([], parallelism) == labels
  {
  }

  lemma LabelsAfter(labels: seq<string>, a: seq<string>, b: seq<string>, parallelism: nat)
    ensures (labels + LabelsOf(a, parallelism)) + LabelsOf(b, parallelism) == labels + LabelsOf(a + b, parallelism)
  {
    LabelsAppend(a, b, parallelism);
  }

  /** Appends the partitions of one scan. */
  method ScanPartitions(path: string, before: seq<PartitionSpec>, ghost labels: seq<string>, parallelism: nat)
    returns (out: seq<PartitionSpec>)
    requires Holds(before, labels)
    ensures Holds(out, labels + LabelsOf([path], parallelism))
  {
    out := before;
    for partition := 0 to parallelism
      invariant Holds(out, labels + ScanLabels(path, parallelism)[..partition])
    {
      out := out + [PartitionSpec(|out|, PartitionLabel(path, partition))];
    }
    assert LabelsOf([path], parallelism) == LabelsOf([], parallelism) + ScanLabels(path, parallelism);
  }

  /** Appends the partitions of every scan below `p`. */
  method CollectScans(p: Plan, before: seq<PartitionSpec>, ghost labels: seq<string>, parallelism: nat)
    returns (out: seq<PartitionSpec>)
    requires Holds(before, labels)
    ensures Holds(out, labels + LabelsOf(ScanPaths(p), parallelism))
    decreases p
  {
    hide Holds, LabelsOf;
    match p
    case Scan(_, path, _, _) =>
      out := ScanPartitions(path, before, labels, parallelism);
    case Join(left, right, _, _, _) =>
      out := CollectScans(left, before, labels, parallelism);
      ghost var mid := labels + LabelsOf(ScanPaths(left), parallelism);
      out := CollectScans(right, out, mid, parallelism);
      LabelsAfter(labels, ScanPaths(left), ScanPaths(right), parallelism);
    case Union(inputs, _) =>
      out := before;
      NoLabels(labels, parallelism);
      for n := 0 to |inputs|
        invariant Holds(out, labels + LabelsOf(UnionPaths(p, n), parallelism))
      {
        ghost var mid := labels + LabelsOf(UnionPaths(p, n), parallelism);
        out := CollectScans(inputs[n], out, mid, parallelism);
        LabelsAfter(labels, UnionPaths(p, n), ScanPaths(inputs[n]), parallelism);
      }
    case Empty =>
      NoLabels(labels, parallelism);
      out := before;
    case Project(input, _, _) => out := CollectScans(input, before, labels, parallelism);
    case Filter(input, _, _) => out := CollectScans(input, before, labels, parallelism);
    case Aggregation(input, _, _, _) => out := CollectScans(input, before, labels, parallelism);
    case Sort(input, _, _) => out := CollectScans(input, before, labels, parallelism);
    case Limit(input, _, _) => out := CollectScans(input, before, labels, parallelism);
    case Distinct(input, _) => out := CollectScans(input, before, labels, parallelism);
  }

  /** One partition per scan and degree of parallelism, or a single stand-in partition. */
  method PlanPartitions(p: Plan, parallelism: nat) returns (out: seq<PartitionSpec>)
    ensures Holds(out, PlannedLabels(p, parallelism))
    ensures |out| == if |ScanPaths(p)| * parallelism == 0 then 1 else |ScanPaths(p)| * parallelism
  {
    out := CollectScans(p, [], [], parallelism);
    assert [] + LabelsOf(ScanPaths(p), parallelism) == LabelsOf(ScanPaths(p), parallelism);
    LabelsLength(ScanPaths(p), parallelism);
    if out == [] {
      out := [PartitionSpec(0, "no-input")];
    }
  }
}
