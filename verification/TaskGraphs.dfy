/** The task graph a scheduler run reads, and what a well-formed one is (task_graph.hpp). */
module TaskGraphs {
  import opened Basics

  datatype OrderKey = OrderKey(lane: string, ordinals: seq<nat>)

  datatype TaskNode = TaskNode(taskId: string, dependsOn: seq<string>, estSeconds: nat, orderKey: OrderKey)

  datatype TaskGraph = TaskGraph(
    nodes: seq<TaskNode>,
    dependencies: seq<seq<nat>>,
    dependents: seq<seq<nat>>,
    criticalPath: seq<nat>)
  {
    function Size(): nat { |nodes| }

    ghost predicate Shaped() {
      && |dependencies| == |dependents| == |criticalPath| == |nodes|
      && (forall t, i :: 0 <= t < |nodes| && 0 <= i < |dependencies[t]| ==> dependencies[t][i] < |nodes|)
      && (forall t, i :: 0 <= t < |nodes| && 0 <= i < |dependents[t]| ==> dependents[t][i] < |nodes|)
    }

    /** The two edge lists describe the same edges, each edge once. */
    ghost predicate Inverse()
      requires Shaped()
    {
      && (forall t :: 0 <= t < |nodes| ==> NoRepeats(dependencies[t]))
      && (forall t :: 0 <= t < |nodes| ==> NoRepeats(dependents[t]))
      && (forall t, d :: 0 <= t < |nodes| && 0 <= d < |nodes| ==> (d in dependencies[t] <==> t in dependents[d]))
    }

    ghost predicate Ranked(rank: seq<nat>)
      requires Shaped()
    {
      && |rank| == |nodes|
      && forall t, d :: 0 <= t < |nodes| && d in dependencies[t] ==> rank[d] < rank[t]
    }

    ghost predicate Acyclic()
      requires Shaped()
    {
      exists rank :: Ranked(rank)
    }

    ghost predicate DistinctNames() {
      && (forall t, u :: 0 <= t < |nodes| && 0 <= u < |nodes| && nodes[t].taskId == nodes[u].taskId ==> t == u)
      && (forall t, u :: 0 <= t < |nodes| && 0 <= u < |nodes| && nodes[t].orderKey == nodes[u].orderKey ==> t == u)
    }

    ghost predicate Valid() {
      Shaped() && Inverse() && Acyclic() && DistinctNames()
    }

    /** Every dependency of `t` is in `done`. */
    predicate Unblocked(t: nat, done: set<nat>)
      requires t < |dependencies|
    {
      forall d :: d in dependencies[t] ==> d in done
    }
  }

  function FindFrom(nodes: seq<TaskNode>, taskId: string, from: nat): (index: Option<nat>)
    ensures index.Some? ==> from <= index.value < |nodes| && nodes[index.value].taskId == taskId
    ensures index.None? ==> forall t :: from <= t < |nodes| ==> nodes[t].taskId != taskId
    decreases |nodes| - from
  {
    if from >= |nodes| then None
    else if nodes[from].taskId == taskId then Some(from)
    else FindFrom(nodes, taskId, from + 1)
  }

  function Find(g: TaskGraph, taskId: string): Option<nat> {
    FindFrom(g.nodes, taskId, 0)
  }

  function Below(n: nat): (s: set<nat>)
    ensures |s| == n
    ensures forall t: nat :: t in s <==> t < n
  {
    if n == 0 then {} else Below(n - 1) + {n - 1}
  }

  ghost predicate NoRepeats<T>(s: seq<T>) {
    forall i, j :: 0 <= i < j < |s| ==> s[i] != s[j]
  }

  lemma NoRepeatsSnoc<T>(s: seq<T>)
    requires s != []
    ensures NoRepeats(s) <==> NoRepeats(s[..|s| - 1]) && s[|s| - 1] !in s[..|s| - 1]
  {
    var n := |s| - 1;
    assert forall i :: 0 <= i < n ==> s[..n][i] == s[i];
    if NoRepeats(s[..n]) && s[n] !in s[..n] {
      forall i, j | 0 <= i < j < |s| ensures s[i] != s[j] {
        assert s[..n][i] == s[i];
      }
    }
  }
}
