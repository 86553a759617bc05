/** The task graph of one feature and the order in which its workers run: Kahn's
    algorithm with node declaration order as the tie-break (workflows/graph.py). */
module TaskGraphs {
  import opened Overlaps
  import opened Sequences

  datatype TaskNode = TaskNode(
    workerId: string,
    description: string,
    acceptanceCriteria: seq<string>,
    ownedPaths: seq<string>,
    dependsOn: seq<string>)

  datatype TaskGraph = TaskGraph(taskId: string, nodes: seq<TaskNode>)

  // ---------- What an order means ----------

  /** Every dependency names the worker of some node. */
  predicate KnownDependencies(nodes: seq<TaskNode>) {
    forall i, d | 0 <= i < |nodes| && d in nodes[i].dependsOn :: Declared(nodes, d)
  }

  predicate Declared(nodes: seq<TaskNode>, id: string) {
    exists j | 0 <= j < |nodes| :: nodes[j].workerId == id
  }

  ghost predicate UniqueWorkerIds(nodes: seq<TaskNode>) {
    forall i, j :: 0 <= i < j < |nodes| ==> nodes[i].workerId != nodes[j].workerId
  }

  /** Node `a` waits for node `b`. */
  predicate Waits(nodes: seq<TaskNode>, a: nat, b: nat) {
    a < |nodes| && b < |nodes| && nodes[b].workerId in nodes[a].dependsOn
  }

  /** `c` walks along dependencies and closes on its own start. */
  ghost predicate IsCycle(nodes: seq<TaskNode>, c: seq<nat>) {
    |c| > 0
    && (forall k :: 0 <= k < |c| - 1 ==> Waits(nodes, c[k], c[k + 1]))
    && Waits(nodes, c[|c| - 1], c[0])
  }

  ghost predicate Acyclic(nodes: seq<TaskNode>) {
    !exists c :: IsCycle(nodes, c)
  }

  /** A topological order, as declaration indices: every node once, each dependency of a
      node met by a node placed before it. */
  ghost predicate IsTopological(nodes: seq<TaskNode>, order: seq<nat>) {
    IsPermutation(order, |nodes|)
    && forall k, d :: 0 <= k < |order| && d in nodes[order[k]].dependsOn ==> MetBefore(nodes, order, k, d)
  }

  ghost predicate MetBefore(nodes: seq<TaskNode>, order: seq<nat>, k: nat, d: string)
    requires k <= |order| && forall i :: 0 <= i < |order| ==> order[i] < |nodes|
  {
    exists j :: 0 <= j < k && nodes[order[j]].workerId == d
  }

  function WorkerIds(nodes: seq<TaskNode>, order: seq<nat>): seq<string>
    requires forall i :: 0 <= i < |order| ==> order[i] < |nodes|
  {
    seq(|order|, k requires 0 <= k < |order| => nodes[order[k]].workerId)
  }

  /** The workers of the nodes, in this order. */
  ghost predicate Names(nodes: seq<TaskNode>, order: seq<nat>, workers: seq<string>) {
    |workers| == |order|
    && forall k :: 0 <= k < |order| ==> order[k] < |nodes| && workers[k] == nodes[order[k]].workerId
  }

  // ---------- Kahn's algorithm ----------

  predicate Emitted(nodes: seq<TaskNode>, prefix: seq<nat>, id: string) {
    exists k | 0 <= k < |prefix| :: prefix[k] < |nodes| && nodes[prefix[k]].workerId == id
  }

  /** Node `i` has not been taken and all it waits for has. */
  predicate Ready(nodes: seq<TaskNode>, prefix: seq<nat>, i: nat)
    requires i < |nodes|
  {
    i !in prefix && forall d | d in nodes[i].dependsOn :: Emitted(nodes, prefix, d)
  }

  /** The first declared ready node at or after `from`, or the node count when none is. */
  function FirstReadyFrom(nodes: seq<TaskNode>, prefix: seq<nat>, from: nat): (r: nat)
    requires from <= |nodes|
    ensures from <= r <= |nodes|
    ensures r < |nodes| ==> Ready(nodes, prefix, r)
    ensures forall i :: from <= i < r ==> !Ready(nodes, prefix, i)
    decreases |nodes| - from
  {
    if from == |nodes| || Ready(nodes, prefix, from) then from
    else FirstReadyFrom(nodes, prefix, from + 1)
  }

  /** What the algorithm adds to `prefix`; None when it gets stuck. */
  function Kahn(nodes: seq<TaskNode>, prefix: seq<nat>): Option<seq<nat>>
    decreases |nodes| - |prefix|
  {
    if |prefix| >= |nodes| then Some(prefix)
    else
      var i := FirstReadyFrom(nodes, prefix, 0);
      if i == |nodes| then None else Kahn(nodes, prefix + [i])
  }

  method FirstReady(nodes: seq<TaskNode>, prefix: seq<nat>) returns (r: nat)
    ensures r == FirstReadyFrom(nodes, prefix, 0)
  {
    r := 0;
    while r < |nodes| && !Ready(nodes, prefix, r)
      invariant r <= |nodes|
      invariant FirstReadyFrom(nodes, prefix, 0) == FirstReadyFrom(nodes, prefix, r)
    {
      r := r + 1;
    }
  }

  /** The workers in execution and integration order; None stands for TaskGraphError. */
  method GraphOrder(graph: TaskGraph) returns (r: Option<seq<string>>)
    ensures r.Some? <==> exists order :: IsTopological(graph.nodes, order)
    ensures r.Some? ==>
              exists order :: IsTopological(graph.nodes, order) && Names(graph.nodes, order, r.value)
                              && forall other :: IsTopological(graph.nodes, other) ==> LexLeq(order, other)
  {
    var nodes := graph.nodes;
    KahnDecides(nodes);
    if !KnownDependencies(nodes) {
      forall order | IsTopological(nodes, order) ensures false {
        TopologicalIsKnown(nodes, order);
      }
      return None;
    }
    var order: seq<nat> := [];
    while |order| < |nodes|
      invariant |order| <= |nodes| && forall k :: 0 <= k < |order| ==> order[k] < |nodes|
      invariant Kahn(nodes, []) == Kahn(nodes, order)
      decreases |nodes| - |order|
    {
      var i := FirstReady(nodes, order);
      if i == |nodes| { return None; }
      order := order + [i];
    }
    assert Kahn(nodes, []) == Some(order);
    r := Some(WorkerIds(nodes, order));
  }

  // ---------- Soundness: the result is the least topological order ----------

  /** What the algorithm has taken so far: each node was the first ready one in its turn. */
  ghost predicate Greedy(nodes: seq<TaskNode>, p: seq<nat>) {
    |p| <= |nodes|
    && forall k :: 0 <= k < |p| ==> p[k] < |nodes| && p[k] == FirstReadyFrom(nodes, p[..k], 0)
  }

  lemma {:induction false} KahnIsGreedy(nodes: seq<TaskNode>, prefix: seq<nat>)
    requires Greedy(nodes, prefix)
    ensures var r := Kahn(nodes, prefix);
            r.Some? ==> Greedy(nodes, r.value) && |r.value| == |nodes|
    decreases |nodes| - |prefix|
  {
    if |prefix| < |nodes| {
      var i := FirstReadyFrom(nodes, prefix, 0);
      if i < |nodes| {
        var next := prefix + [i];
        forall k | 0 <= k < |next| ensures next[k] == FirstReadyFrom(nodes, next[..k], 0) {
          assert next[..k] == prefix[..k];
          if k == |prefix| { assert prefix[..k] == prefix; }
        }
        KahnIsGreedy(nodes, next);
      }
    }
  }

  lemma {:induction false} GreedyIsTopological(nodes: seq<TaskNode>, p: seq<nat>)
    requires Greedy(nodes, p) && |p| == |nodes|
    ensures IsTopological(nodes, p)
  {
    forall i, j | 0 <= i < j < |p| ensures p[i] != p[j] {
      assert Ready(nodes, p[..j], p[j]);
      assert p[..j][i] == p[i];
    }
    forall k, d | 0 <= k < |p| && d in nodes[p[k]].dependsOn ensures MetBefore(nodes, p, k, d) {
      assert Ready(nodes, p[..k], p[k]) && Emitted(nodes, p[..k], d);
      var j :| 0 <= j < |p[..k]| && nodes[p[..k][j]].workerId == d;
      assert nodes[p[j]].workerId == d;
    }
  }

  /** In any topological order the k-th node is ready once the first k are taken. */
  lemma {:induction false} TopologicalNextIsReady(nodes: seq<TaskNode>, t: seq<nat>, k: nat)
    requires IsTopological(nodes, t) && k < |t|
    ensures Ready(nodes, t[..k], t[k])
  {
    forall d | d in nodes[t[k]].dependsOn ensures Emitted(nodes, t[..k], d) {
      assert MetBefore(nodes, t, k, d);
      var j :| 0 <= j < k && nodes[t[j]].workerId == d;
      assert t[..k][j] == t[j];
    }
  }

  lemma {:induction false} FirstReadyIsLeast(nodes: seq<TaskNode>, taken: seq<nat>, i: nat)
    requires i < |nodes| && Ready(nodes, taken, i)
    ensures FirstReadyFrom(nodes, taken, 0) <= i
  {
  }

  lemma {:induction false} GreedyIsLeast(nodes: seq<TaskNode>, p: seq<nat>, t: seq<nat>)
    requires Greedy(nodes, p) && |p| == |nodes| && IsTopological(nodes, t)
    ensures LexLeq(p, t)
  {
    if p != t {
      var k := FirstDifference(p, t);
      TopologicalNextIsReady(nodes, t, k);
      var taken := p[..k];
      assert t[..k] == taken;
      FirstReadyIsLeast(nodes, taken, t[k]);
      assert p[k] < t[k];
    }
  }

  // ---------- Completeness: stuck means no order exists ----------

  ghost predicate Stuck(nodes: seq<TaskNode>, p: seq<nat>) {
    |p| < |nodes| && (forall k :: 0 <= k < |p| ==> p[k] < |nodes|)
    && forall i :: 0 <= i < |nodes| ==> !Ready(nodes, p, i)
  }

  lemma {:induction false} KahnFailureIsStuck(nodes: seq<TaskNode>, prefix: seq<nat>) returns (p: seq<nat>)
    requires Kahn(nodes, prefix).None? && forall k :: 0 <= k < |prefix| ==> prefix[k] < |nodes|
    ensures Stuck(nodes, p)
    decreases |nodes| - |prefix|
  {
    var i := FirstReadyFrom(nodes, prefix, 0);
    if i == |nodes| {
      p := prefix;
    } else {
      p := KahnFailureIsStuck(nodes, prefix + [i]);
    }
  }

  lemma {:induction false} StuckHasNoOrder(nodes: seq<TaskNode>, p: seq<nat>, t: seq<nat>)
    requires Stuck(nodes, p)
    ensures !IsTopological(nodes, t)
  {
    if IsTopological(nodes, t) {
      OwedNodeIsReady(nodes, p, t);
    }
  }

  /** The first node of `t` that `p` has not taken has all its dependencies taken. */
  lemma {:induction false} OwedNodeIsReady(nodes: seq<TaskNode>, p: seq<nat>, t: seq<nat>)
    requires |p| < |nodes| && IsTopological(nodes, t)
    ensures exists i :: 0 <= i < |nodes| && Ready(nodes, p, i)
  {
    var k := 0;
    while k < |t| && t[k] in p
      invariant k <= |t| && forall i :: 0 <= i < k ==> t[i] in p
    {
      k := k + 1;
    }
    if k == |t| {
      assert Elements(t) <= Elements(p);
      DistinctCardinality(t);
      SubsetCardinality(Elements(t), Elements(p));
      ElementsAtMost(p);
      assert false;
    } else {
      forall d | d in nodes[t[k]].dependsOn ensures Emitted(nodes, p, d) {
        assert MetBefore(nodes, t, k, d);
        var j :| 0 <= j < k && nodes[t[j]].workerId == d;
        var i :| 0 <= i < |p| && p[i] == t[j];
      }
      assert Ready(nodes, p, t[k]);
    }
  }

  lemma {:induction false} ElementsAtMost<T(!new)>(s: seq<T>)
    ensures |Elements(s)| <= |s|
  {
    if s != [] {
      ElementsAtMost(s[..|s| - 1]);
      assert s == s[..|s| - 1] + [s[|s| - 1]];
      assert Elements(s) == Elements(s[..|s| - 1]) + {s[|s| - 1]};
    }
  }

  /** Kahn's algorithm succeeds exactly when a topological order exists, and then gives
      the one that is least by declaration index. */
  lemma {:induction false} KahnDecides(nodes: seq<TaskNode>)
    ensures var r := Kahn(nodes, []);
            && (r.Some? <==> exists order :: IsTopological(nodes, order))
            && (r.Some? ==> IsTopological(nodes, r.value)
                            && forall other :: IsTopological(nodes, other) ==> LexLeq(r.value, other))
  {
    var r := Kahn(nodes, []);
    if r.Some? {
      KahnIsGreedy(nodes, []);
      GreedyIsTopological(nodes, r.value);
      forall other | IsTopological(nodes, other) ensures LexLeq(r.value, other) {
        GreedyIsLeast(nodes, r.value, other);
      }
    } else {
      var p := KahnFailureIsStuck(nodes, []);
      forall order | IsTopological(nodes, order) ensures false {
        StuckHasNoOrder(nodes, p, order);
      }
    }
  }

  lemma {:induction false} TopologicalIsKnown(nodes: seq<TaskNode>, order: seq<nat>)
    requires IsTopological(nodes, order)
    ensures KnownDependencies(nodes)
  {
    forall i, d | 0 <= i < |nodes| && d in nodes[i].dependsOn ensures Declared(nodes, d) {
      PermutationCovers(order, |nodes|, i);
      var k :| 0 <= k < |order| && order[k] == i;
      assert MetBefore(nodes, order, k, d);
    }
  }

  // ---------- Stuck means a cycle ----------

  /** A node the stuck state still owes that node `i`, itself owed, waits for. */
  lemma {:induction false} OwedPredecessor(nodes: seq<TaskNode>, p: seq<nat>, i: nat) returns (j: nat)
    requires Stuck(nodes, p) && KnownDependencies(nodes) && i < |nodes| && i !in p
    ensures Waits(nodes, i, j) && j !in p
  {
    assert !Ready(nodes, p, i);
    var d :| d in nodes[i].dependsOn && !Emitted(nodes, p, d);
    assert Declared(nodes, d);
    j :| 0 <= j < |nodes| && nodes[j].workerId == d;
  }

  ghost predicate IsWalk(nodes: seq<TaskNode>, w: seq<nat>) {
    forall k :: 0 <= k < |w| - 1 ==> Waits(nodes, w[k], w[k + 1])
  }

  /** A stuck graph whose dependencies are all declared contains a dependency cycle. */
  lemma {:induction false} StuckHasCycle(nodes: seq<TaskNode>, p: seq<nat>) returns (c: seq<nat>)
    requires Stuck(nodes, p) && KnownDependencies(nodes)
    ensures IsCycle(nodes, c)
  {
    var start := UntakenNode(nodes, p);
    var w: seq<nat> := [start];
    while |w| <= |nodes|
      invariant |w| > 0 && IsWalk(nodes, w)
      invariant forall k :: 0 <= k < |w| ==> w[k] < |nodes| && w[k] !in p
      decreases |nodes| + 1 - |w|
    {
      var j := OwedPredecessor(nodes, p, w[|w| - 1]);
      w := w + [j];
    }
    var a, b := Pigeonhole(w, |nodes|);
    c := w[a..b];
    assert Waits(nodes, w[b - 1], w[b]);
  }

  lemma {:induction false} UntakenNode(nodes: seq<TaskNode>, p: seq<nat>) returns (i: nat)
    requires |p| < |nodes|
    ensures i < |nodes| && i !in p
  {
    if forall x: nat :: x < |nodes| ==> x in p {
      SubsetCardinality(Below(|nodes|), Elements(p));
      ElementsAtMost(p);
      assert false;
    }
    i :| i < |nodes| && i !in p;
  }

  /** Where the two ends of a dependency stand in a topological order. */
  lemma {:induction false} DependencyIsEarlier(
      nodes: seq<TaskNode>, t: seq<nat>, a: nat, b: nat) returns (pa: nat, pb: nat)
    requires UniqueWorkerIds(nodes) && IsTopological(nodes, t) && Waits(nodes, a, b)
    ensures pb < pa < |t| && t[pa] == a && t[pb] == b
  {
    PermutationCovers(t, |nodes|, a);
    pa :| 0 <= pa < |t| && t[pa] == a;
    assert MetBefore(nodes, t, pa, nodes[b].workerId);
    pb :| 0 <= pb < pa && nodes[t[pb]].workerId == nodes[b].workerId;
  }

  lemma {:induction false} CycleHasNoOrder(nodes: seq<TaskNode>, c: seq<nat>, t: seq<nat>)
    requires UniqueWorkerIds(nodes) && IsCycle(nodes, c)
    ensures !IsTopological(nodes, t)
  {
    if IsTopological(nodes, t) {
      // Positions along the cycle strictly fall, yet it closes.
      var last, first := DependencyIsEarlier(nodes, t, c[|c| - 1], c[0]);
      var at: nat := first;
      for k := 0 to |c| - 1
        invariant at <= first && at < |t| && t[at] == c[k]
      {
        var pa, pb := DependencyIsEarlier(nodes, t, c[k], c[k + 1]);
        assert pa == at;
        at := pb;
      }
    }
  }

  /** On a graph with unique worker ids the order exists exactly when every dependency is
      declared and no dependency cycle exists. */
  lemma {:induction false} OrderExistsIffAcyclic(nodes: seq<TaskNode>)
    requires UniqueWorkerIds(nodes)
    ensures (exists order :: IsTopological(nodes, order)) <==> KnownDependencies(nodes) && Acyclic(nodes)
  {
    KahnDecides(nodes);
    if order :| IsTopological(nodes, order) {
      TopologicalIsKnown(nodes, order);
      forall c | IsCycle(nodes, c) ensures false {
        CycleHasNoOrder(nodes, c, order);
      }
    } else if KnownDependencies(nodes) {
      var p := KahnFailureIsStuck(nodes, []);
      var c := StuckHasCycle(nodes, p);
    }
  }

  // ---------- Validation before any worker runs ----------

  function OwnedPaths(nodes: seq<TaskNode>): seq<seq<string>> {
    seq(|nodes|, i requires 0 <= i < |nodes| => nodes[i].ownedPaths)
  }

  /** The pairs of nodes that own a common path, each once and in order, with just these paths. */
  ghost predicate OwnershipOverlaps(nodes: seq<TaskNode>, overlaps: seq<Overlap<string>>) {
    && InPairOrder(overlaps)
    && (forall e :: e in overlaps ==> OwnedByBoth(nodes, e))
    && forall i, j :: 0 <= i < j < |nodes| ==> (ShareAPath(nodes[i], nodes[j]) <==> ReportsPair(overlaps, i, j))
  }

  ghost predicate OwnedByBoth(nodes: seq<TaskNode>, e: Overlap<string>) {
    && e.first < e.second < |nodes|
    && forall p :: p in e.paths <==> p in nodes[e.first].ownedPaths && p in nodes[e.second].ownedPaths
  }

  ghost predicate ShareAPath(a: TaskNode, b: TaskNode) {
    exists p :: p in a.ownedPaths && p in b.ownedPaths
  }

  ghost predicate ReportsPair(overlaps: seq<Overlap<string>>, i: nat, j: nat) {
    exists e :: e in overlaps && e.first == i && e.second == j
  }

  lemma {:induction false} ReportIsOwnership(nodes: seq<TaskNode>)
    ensures OwnershipOverlaps(nodes, ReportFrom(OwnedPaths(nodes), 0, 1))
  {
    hide ReportFrom, Shared, InPairOrder;
    var paths := OwnedPaths(nodes);
    var report := ReportFrom(paths, 0, 1);
    ReportInOrder(paths, 0, 1);
    forall e | e in report ensures OwnedByBoth(nodes, e) {
      ReportExact(paths, 0, 1, e);
      forall p ensures p in e.paths <==> p in paths[e.first] && p in paths[e.second] {
        SharedExact(paths[e.first], paths[e.second], p);
      }
    }
    forall i, j | 0 <= i < j < |nodes| ensures ShareAPath(nodes[i], nodes[j]) <==> ReportsPair(report, i, j) {
      OverlapReported(paths, i, j);
      assert paths[i] == nodes[i].ownedPaths && paths[j] == nodes[j].ownedPaths;
    }
  }

  /** The ownership overlaps of a valid graph, in node order; None stands for
      TaskGraphError. The check order only decides which message is raised. */
  method ValidateTaskGraph(graph: TaskGraph, maxWorkers: Option<int>) returns (r: Option<seq<Overlap<string>>>)
    ensures r.Some?
            <==> var nodes := graph.nodes;
                 && nodes != []
                 && UniqueWorkerIds(nodes)
                 && (forall n :: n in nodes ==> n.workerId != "" && n.ownedPaths != [] && n.acceptanceCriteria != [])
                 && KnownDependencies(nodes)
                 && Acyclic(nodes)
                 && (maxWorkers.Some? ==> |nodes| <= maxWorkers.value)
    ensures r.Some? ==> r.value == ReportFrom(OwnedPaths(graph.nodes), 0, 1)
    ensures r.Some? ==> OwnershipOverlaps(graph.nodes, r.value)
  {
    var nodes := graph.nodes;
    if nodes == [] { return None; }
    if exists n | n in nodes :: n.workerId == "" { return None; }
    var unique := HasUniqueIds(nodes);
    if !unique { return None; }
    if !KnownDependencies(nodes) { return None; }
    if i :| 0 <= i < |nodes| && nodes[i].workerId in nodes[i].dependsOn {
      SelfDependencyIsCycle(nodes, i);
      return None;
    }
    var order := GraphOrder(graph);
    OrderExistsIffAcyclic(nodes);
    if order.None? { return None; }
    if exists n | n in nodes :: n.ownedPaths == [] { return None; }
    if exists n | n in nodes :: n.acceptanceCriteria == [] { return None; }
    if maxWorkers.Some? && |nodes| > maxWorkers.value { return None; }
    var overlaps := PairwiseOverlaps(OwnedPaths(nodes));
    ReportIsOwnership(nodes);
    return Some(overlaps);
  }

  method HasUniqueIds(nodes: seq<TaskNode>) returns (unique: bool)
    ensures unique <==> UniqueWorkerIds(nodes)
  {
    var seen: set<string> := {};
    for i := 0 to |nodes|
      invariant forall id :: id in seen <==> exists k :: 0 <= k < i && nodes[k].workerId == id
      invariant UniqueWorkerIds(nodes[..i])
    {
      if nodes[i].workerId in seen { return false; }
      seen := seen + {nodes[i].workerId};
    }
    assert nodes[..|nodes|] == nodes;
    return true;
  }

  lemma {:induction false} SelfDependencyIsCycle(nodes: seq<TaskNode>, i: nat)
    requires i < |nodes| && nodes[i].workerId in nodes[i].dependsOn
    ensures !Acyclic(nodes)
  {
    assert IsCycle(nodes, [i]);
  }
}
