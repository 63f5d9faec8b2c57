/** Building a task graph from its nodes: edges, a topological order, critical paths (task_graph.cpp). */
module TaskGraphBuilding {
  import opened Basics
  import opened TaskGraphs
  import opened Sorting
  import opened ReadyQueues
  import opened ReadySets

  datatype GraphIssue = InvalidTaskSpec | DuplicateTaskId | MissingDependency | DependencyCycle | DuplicateOrderKey

  const MAX_U64: nat := 0xFFFF_FFFF_FFFF_FFFF

  // ---- What nodes make a graph ----

  predicate StringBefore(a: string, b: string) { LexBefore(CharLess(), a, b) }

  /** The dependencies of a node are listed in ascending order, so none twice. */
  predicate Ascending(names: seq<string>) {
    forall i :: 0 < i < |names| ==> StringBefore(names[i - 1], names[i])
  }

  ghost predicate DistinctIds(nodes: seq<TaskNode>) {
    forall t, u :: 0 <= t < u < |nodes| ==> nodes[t].taskId != nodes[u].taskId
  }

  ghost predicate DistinctKeys(nodes: seq<TaskNode>) {
    forall t, u :: 0 <= t < u < |nodes| ==> nodes[t].orderKey != nodes[u].orderKey
  }

  predicate KnownDependencies(nodes: seq<TaskNode>) {
    forall t :: 0 <= t < |nodes| ==> AllKnown(nodes, nodes[t].dependsOn)
  }

  predicate AllKnown(nodes: seq<TaskNode>, names: seq<string>) {
    forall i :: 0 <= i < |names| ==> FindFrom(nodes, names[i], 0).Some?
  }

  /** The tasks that `names` name. */
  function Resolved(nodes: seq<TaskNode>, names: seq<string>): (r: seq<nat>)
    requires AllKnown(nodes, names)
    ensures |r| == |names| && forall i :: 0 <= i < |r| ==> r[i] < |nodes| && nodes[r[i]].taskId == names[i]
  {
    seq(|names|, i requires 0 <= i < |names| => FindFrom(nodes, names[i], 0).value)
  }

  function DependenciesOf(nodes: seq<TaskNode>): (r: seq<seq<nat>>)
    requires KnownDependencies(nodes)
    ensures |r| == |nodes|
  {
    seq(|nodes|, t requires 0 <= t < |nodes| => Resolved(nodes, nodes[t].dependsOn))
  }

  /** `rank` puts every task after its dependencies. */
  ghost predicate Ranks(dependencies: seq<seq<nat>>, rank: seq<nat>) {
    |rank| == |dependencies| && forall t, d :: 0 <= t < |rank| && d in dependencies[t] ==> d < |rank| && rank[d] < rank[t]
  }

  ghost predicate NoCycle(dependencies: seq<seq<nat>>) {
    exists rank :: Ranks(dependencies, rank)
  }

  /** What is checked first, node by node. */
  ghost predicate IdentitiesValid(nodes: seq<TaskNode>) {
    DistinctKeys(nodes) && forall t :: 0 <= t < |nodes| ==> Ascending(nodes[t].dependsOn)
  }

  /** Node `t` is the first with something wrong: its dependencies do not ascend, or else an earlier node has its key. */
  ghost predicate FailsFirstAt(nodes: seq<TaskNode>, t: nat, issue: GraphIssue) {
    && t < |nodes| && IdentitiesValid(nodes[..t])
    && if issue == InvalidTaskSpec then !Ascending(nodes[t].dependsOn)
       else issue == DuplicateOrderKey && Ascending(nodes[t].dependsOn) && exists u :: 0 <= u < t && nodes[u].orderKey == nodes[t].orderKey
  }

  ghost predicate Buildable(nodes: seq<TaskNode>) {
    && IdentitiesValid(nodes) && DistinctIds(nodes) && KnownDependencies(nodes)
    && NoCycle(DependenciesOf(nodes))
  }

  lemma {:induction false} AscendingFromTo(names: seq<string>, i: nat, j: nat)
    requires Ascending(names) && i < j < |names|
    ensures StringBefore(names[i], names[j])
  {
    if i + 1 < j {
      AscendingFromTo(names, i, j - 1);
      LexTransitive(CharLess(), names[i], names[j - 1], names[j]);
    } else {
      assert StringBefore(names[j - 1], names[j]);
    }
  }

  lemma ResolvedHasNoRepeats(nodes: seq<TaskNode>, names: seq<string>)
    requires Ascending(names) && AllKnown(nodes, names)
    ensures NoRepeats(Resolved(nodes, names))
  {
    forall i, j | 0 <= i < j < |names| ensures Resolved(nodes, names)[i] != Resolved(nodes, names)[j] {
      AscendingFromTo(names, i, j);
      LexTotal(CharLess(), names[i], names[i]);
    }
  }

  // ---- The reverse edges ----

  /** The tasks before `n` that depend on `d`, ascending. */
  function DependentsUpTo(dependencies: seq<seq<nat>>, n: nat, d: nat): seq<nat>
    requires n <= |dependencies|
  {
    if n == 0 then []
    else DependentsUpTo(dependencies, n - 1, d) + if d in dependencies[n - 1] then [n - 1] else []
  }

  lemma {:induction false} DependentsAre(dependencies: seq<seq<nat>>, n: nat, d: nat)
    requires n <= |dependencies|
    ensures forall t: nat :: t in DependentsUpTo(dependencies, n, d) <==> t < n && d in dependencies[t]
    ensures NoRepeats(DependentsUpTo(dependencies, n, d))
  {
    if n > 0 { DependentsAre(dependencies, n - 1, d); }
  }

  function DependentsOf(dependencies: seq<seq<nat>>): (r: seq<seq<nat>>)
    ensures |r| == |dependencies|
  {
    seq(|dependencies|, d requires 0 <= d < |dependencies| => DependentsUpTo(dependencies, |dependencies|, d))
  }

  ghost predicate InRange(dependencies: seq<seq<nat>>) {
    forall t, i :: 0 <= t < |dependencies| && 0 <= i < |dependencies[t]| ==> dependencies[t][i] < |dependencies|
  }

  /** The graph of some edges. */
  function GraphOf(nodes: seq<TaskNode>, dependencies: seq<seq<nat>>, criticalPath: seq<nat>): TaskGraph {
    TaskGraph(nodes, dependencies, DependentsOf(dependencies), criticalPath)
  }

  lemma EdgesAreInverse(nodes: seq<TaskNode>, dependencies: seq<seq<nat>>, criticalPath: seq<nat>)
    requires |nodes| == |dependencies| == |criticalPath| && InRange(dependencies)
    requires forall t :: 0 <= t < |nodes| ==> NoRepeats(dependencies[t])
    ensures GraphOf(nodes, dependencies, criticalPath).Shaped() && GraphOf(nodes, dependencies, criticalPath).Inverse()
  {
    forall d: nat | d < |nodes|
      ensures NoRepeats(DependentsOf(dependencies)[d])
      ensures forall t: nat :: t in DependentsOf(dependencies)[d] <==> t < |nodes| && d in dependencies[t]
    {
      DependentsAre(dependencies, |nodes|, d);
    }
    forall d, i | 0 <= d < |nodes| && 0 <= i < |DependentsOf(dependencies)[d]| ensures DependentsOf(dependencies)[d][i] < |nodes| {
      assert DependentsOf(dependencies)[d][i] in DependentsOf(dependencies)[d];
    }
  }

  // ---- A topological order ----

  ghost predicate Within(order: seq<nat>, n: nat) {
    forall i :: 0 <= i < |order| ==> order[i] < n
  }

  /** Position `i` of the order comes after all dependencies of its task. */
  ghost predicate AfterDependencies(dependencies: seq<seq<nat>>, order: seq<nat>, i: nat) {
    i < |order| && order[i] < |dependencies| ==> forall d :: d in dependencies[order[i]] ==> d in order[..i]
  }

  /** What the loop of Kahn's algorithm keeps for task `t`: how many dependencies are not yet visited, and
      that it is in the order when there are none. */
  ghost predicate Counted(dependencies: seq<seq<nat>>, pending: seq<nat>, order: seq<nat>, visited: set<nat>, t: nat) {
    t < |dependencies| && t < |pending| ==>
      pending[t] == Pending(dependencies[t], visited) && (pending[t] == 0 <==> t in order)
  }

  ghost predicate AllCounted(dependencies: seq<seq<nat>>, pending: seq<nat>, order: seq<nat>, visited: set<nat>) {
    forall t :: Counted(dependencies, pending, order, visited, t)
  }

  /** Every task left out of the order waits for another one left out: there is no rank. */
  lemma {:induction false} LeftOutMeansCycle(dependencies: seq<seq<nat>>, rank: seq<nat>, order: seq<nat>, t: nat)
    requires Ranks(dependencies, rank) && t < |dependencies| && t !in order
    requires forall u :: 0 <= u < |dependencies| && u !in order ==> exists d :: d in dependencies[u] && d !in order
    ensures false
    decreases rank[t]
  {
    var d :| d in dependencies[t] && d !in order;
    LeftOutMeansCycle(dependencies, rank, order, d);
  }

  /** Positions in a complete order are ranks. */
  lemma CompleteOrderRanks(dependencies: seq<seq<nat>>, order: seq<nat>) returns (rank: seq<nat>)
    requires InRange(dependencies) && Within(order, |dependencies|) && Distinct(order) && |order| == |dependencies|
    requires forall i :: AfterDependencies(dependencies, order, i)
    ensures Ranks(dependencies, rank)
    ensures forall i :: 0 <= i < |order| ==> rank[order[i]] == i
  {
    var n := |order|;
    AllAppear(order, n);
    rank := seq(n, t requires 0 <= t < n => PositionOf(order, t));
    forall t, d | 0 <= t < n && d in dependencies[t] ensures d < n && rank[d] < rank[t] {
      var i := rank[t];
      assert order[i] == t && AfterDependencies(dependencies, order, i);
      var j :| 0 <= j < i && order[j] == d;
      assert PositionOf(order, d) == j;
    }
    forall i | 0 <= i < n ensures rank[order[i]] == i { assert PositionOf(order, order[i]) == i; }
  }

  function PositionOf(order: seq<nat>, t: nat): (i: nat)
    requires t in order
    ensures i < |order| && order[i] == t
  {
    if order[|order| - 1] == t then |order| - 1 else PositionOf(order[..|order| - 1], t)
  }

  lemma {:induction false} MembersCount(order: seq<nat>)
    requires Distinct(order)
    ensures |Members(order)| == |order|
  {
    if order != [] {
      var n := |order| - 1;
      MembersCount(order[..n]);
      assert order == order[..n] + [order[n]];
      assert Members(order) == Members(order[..n]) + {order[n]} && order[n] !in Members(order[..n]);
    }
  }

  lemma AllAppear(order: seq<nat>, n: nat)
    requires Within(order, n) && Distinct(order) && |order| == n
    ensures forall t: nat :: t < n ==> t in order
  {
    MembersCount(order);
    var all := Below(n);
    assert Members(order) <= all && |all - Members(order)| == |all| - |Members(order)|;
    assert all - Members(order) == {};
    forall t: nat | t < n ensures t in order { assert t in all; }
  }

  lemma SomeoneIsLeftOut(order: seq<nat>, n: nat) returns (t: nat)
    requires Within(order, n) && Distinct(order) && |order| != n
    ensures t < n && t !in order
  {
    MembersCount(order);
    var all := Below(n);
    assert Members(order) <= all && |all - Members(order)| == |all| - |Members(order)|;
    t :| t in all - Members(order);
  }

  /** The state of the loop that visits the order from the front and appends what becomes free. */
  ghost predicate Ordering(dependencies: seq<seq<nat>>, pending: seq<nat>, order: seq<nat>, cursor: nat) {
    && |pending| == |dependencies| && cursor <= |order|
    && Within(order, |dependencies|) && Distinct(order)
    && AllCounted(dependencies, pending, order, Members(order[..cursor]))
    && (forall i :: AfterDependencies(dependencies, order, i))
  }

  lemma OrderingStarts(dependencies: seq<seq<nat>>, pending: seq<nat>, order: seq<nat>)
    requires |pending| == |dependencies| && forall t :: 0 <= t < |pending| ==> pending[t] == |dependencies[t]|
    requires Within(order, |dependencies|) && Distinct(order)
    requires forall t: nat :: t in order <==> t < |pending| && pending[t] == 0
    ensures Ordering(dependencies, pending, order, 0)
  {
    assert Members(order[..0]) == {};
    forall t: nat ensures Counted(dependencies, pending, order, {}, t) {
      if t < |pending| { NothingDone(dependencies[t]); }
    }
    forall i: nat ensures AfterDependencies(dependencies, order, i) {
      if i < |order| { assert order[i] in order; }
    }
  }

  /** Visiting one more task: the counts of its dependents fall, and those at zero join the order. */
  lemma OrderingStep(dependencies: seq<seq<nat>>, pending: seq<nat>, order: seq<nat>, cursor: nat, after: seq<nat>, freed: seq<nat>)
    requires InRange(dependencies) && forall t :: 0 <= t < |dependencies| ==> NoRepeats(dependencies[t])
    requires Ordering(dependencies, pending, order, cursor) && cursor < |order|
    requires |after| == |pending| && forall t :: CountsDown(pending, after, DependentsOf(dependencies)[order[cursor]], t)
    requires Distinct(freed) && forall d :: d in freed <==> d in DependentsOf(dependencies)[order[cursor]] && d < |after| && after[d] == 0
    ensures Ordering(dependencies, after, order + freed, cursor + 1)
  {
    var t: nat := order[cursor];
    var longer: seq<nat> := order + freed;
    var visited: set<nat>, next: set<nat> := Members(order[..cursor]), Members(longer[..cursor + 1]);
    assert longer[..cursor + 1] == order[..cursor] + [t];
    assert next == visited + {t};
    assert t !in visited;
    DependentsAre(dependencies, |dependencies|, t);
    forall u: nat ensures Counted(dependencies, after, longer, next, u) {
      assert Counted(dependencies, pending, order, visited, u) && CountsDown(pending, after, DependentsOf(dependencies)[t], u);
      if u < |dependencies| { PendingCompleted(dependencies[u], visited, t); }
    }
    assert AllCounted(dependencies, after, longer, next);
    forall u | u in freed ensures u !in order {
      assert Counted(dependencies, pending, order, visited, u) && CountsDown(pending, after, DependentsOf(dependencies)[t], u);
    }
    forall i, j | 0 <= i < j < |longer| ensures longer[i] != longer[j] {
      if i < |order| <= j { assert longer[i] in order && longer[j] in freed; }
    }
    forall i | 0 <= i < |longer| ensures longer[i] < |dependencies| {
      if i >= |order| { assert longer[i] in freed; }
    }
    forall i: nat ensures AfterDependencies(dependencies, longer, i) {
      assert AfterDependencies(dependencies, order, i);
      if i < |order| {
        assert longer[..i] == order[..i];
      } else if i < |longer| {
        assert longer[i] in freed;
        assert Counted(dependencies, after, longer, next, longer[i]);
        PendingZero(dependencies[longer[i]], next);
        assert forall d :: d in next ==> d in longer[..i];
      }
    }
  }

  lemma Awaiting(dependencies: seq<seq<nat>>, pending: seq<nat>, order: seq<nat>, cursor: nat)
    requires InRange(dependencies) && Ordering(dependencies, pending, order, cursor) && cursor < |order|
    ensures NoRepeats(DependentsOf(dependencies)[order[cursor]])
    ensures forall d :: d in DependentsOf(dependencies)[order[cursor]] ==> Awaited(pending, d)
  {
    var t := order[cursor];
    DependentsAre(dependencies, |dependencies|, t);
    assert t !in Members(order[..cursor]);
    forall d | d in DependentsOf(dependencies)[t] ensures Awaited(pending, d) {
      assert Counted(dependencies, pending, order, Members(order[..cursor]), d);
      PendingZero(dependencies[d], Members(order[..cursor]));
    }
  }

  /** When everything in the order was visited, what is left out waits for something left out. */
  lemma LeftOutWaits(dependencies: seq<seq<nat>>, pending: seq<nat>, order: seq<nat>, u: nat)
    requires InRange(dependencies) && Ordering(dependencies, pending, order, |order|) && u < |dependencies| && u !in order
    ensures exists d :: d in dependencies[u] && d !in order
  {
    assert order[..|order|] == order;
    assert Counted(dependencies, pending, order, Members(order), u);
    PendingZero(dependencies[u], Members(order));
  }

  /** Kahn's algorithm: an order with every task after its dependencies, or proof that there is none. */
  method TopologicalOrder(dependencies: seq<seq<nat>>, dependents: seq<seq<nat>>) returns (order: seq<nat>)
    requires InRange(dependencies) && dependents == DependentsOf(dependencies)
    requires forall t :: 0 <= t < |dependencies| ==> NoRepeats(dependencies[t])
    ensures Within(order, |dependencies|) && Distinct(order)
    ensures |order| == |dependencies| <==> NoCycle(dependencies)
    ensures forall i :: AfterDependencies(dependencies, order, i)
  {
    hide Counted, AfterDependencies;
    var pending: seq<nat> := [];
    order := [];
    for t := 0 to |dependencies|
      invariant |pending| == t && forall u :: 0 <= u < t ==> pending[u] == |dependencies[u]|
      invariant Within(order, t) && Distinct(order)
      invariant forall u: nat :: u in order <==> u < t && pending[u] == 0
    {
      pending := pending + [|dependencies[t]|];
      if pending[t] == 0 {
        order := order + [t];
      }
    }
    OrderingStarts(dependencies, pending, order);
    var cursor := 0;
    while cursor < |order|
      invariant 0 <= cursor <= |order| && Ordering(dependencies, pending, order, cursor)
      decreases |dependencies| - cursor
    {
      NotTooLong(order, |dependencies|);
      Awaiting(dependencies, pending, order, cursor);
      var after, freed := CountDown(pending, dependents[order[cursor]]);
      OrderingStep(dependencies, pending, order, cursor, after, freed);
      pending, order := after, order + freed;
      cursor := cursor + 1;
    }
    OrderDecides(dependencies, pending, order);
  }

  lemma NotTooLong(order: seq<nat>, n: nat)
    requires Within(order, n) && Distinct(order)
    ensures |order| <= n
  {
    MembersCount(order);
    var all := Below(n);
    assert Members(order) <= all && |all - Members(order)| == |all| - |Members(order)|;
  }

  lemma OrderDecides(dependencies: seq<seq<nat>>, pending: seq<nat>, order: seq<nat>)
    requires InRange(dependencies) && Ordering(dependencies, pending, order, |order|)
    ensures |order| == |dependencies| <==> NoCycle(dependencies)
  {
    if |order| == |dependencies| {
      var rank := CompleteOrderRanks(dependencies, order);
    } else if NoCycle(dependencies) {
      var rank :| Ranks(dependencies, rank);
      var t := SomeoneIsLeftOut(order, |dependencies|);
      forall u | 0 <= u < |dependencies| && u !in order ensures exists d :: d in dependencies[u] && d !in order {
        LeftOutWaits(dependencies, pending, order, u);
      }
      LeftOutMeansCycle(dependencies, rank, order, t);
    }
  }

  // ---- Critical paths ----

  function SaturatingAdd(a: nat, b: nat): (r: nat)
    ensures r == if a + b > MAX_U64 then MAX_U64 else a + b
  {
    if a > MAX_U64 - b then MAX_U64 else a + b
  }

  function LongestTail(criticalPath: seq<nat>, tasks: seq<nat>): (longest: nat)
    requires Within(tasks, |criticalPath|)
    ensures forall d :: d in tasks ==> criticalPath[d] <= longest
    ensures tasks != [] ==> exists d :: d in tasks && criticalPath[d] == longest
    ensures tasks == [] ==> longest == 0
  {
    if tasks == [] then 0
    else
      var n := |tasks| - 1;
      assert tasks == tasks[..n] + [tasks[n]];
      assert tasks[n] in tasks;
      var before := LongestTail(criticalPath, tasks[..n]);
      if before > criticalPath[tasks[n]] then before else criticalPath[tasks[n]]
  }

  lemma {:induction false} TailUnaffected(criticalPath: seq<nat>, tasks: seq<nat>, t: nat, value: nat)
    requires Within(tasks, |criticalPath|) && t < |criticalPath| && t !in tasks
    ensures LongestTail(criticalPath[t := value], tasks) == LongestTail(criticalPath, tasks)
  {
    if tasks != [] {
      assert tasks[|tasks| - 1] in tasks;
      TailUnaffected(criticalPath, tasks[..|tasks| - 1], t, value);
    }
  }

  /** The critical path of `t` is its own estimate and the longest of its dependents'. */
  ghost predicate CriticalAt(nodes: seq<TaskNode>, dependents: seq<seq<nat>>, criticalPath: seq<nat>, t: nat) {
    t < |nodes| && t < |dependents| && t < |criticalPath| && Within(dependents[t], |criticalPath|) ==>
      criticalPath[t] == SaturatingAdd(nodes[t].estSeconds, LongestTail(criticalPath, dependents[t]))
  }

  lemma DependentsComeLater(dependencies: seq<seq<nat>>, order: seq<nat>, i: nat, d: nat)
    requires InRange(dependencies) && Within(order, |dependencies|) && Distinct(order) && |order| == |dependencies| && i < |order|
    requires forall k :: AfterDependencies(dependencies, order, k)
    requires d in DependentsOf(dependencies)[order[i]]
    ensures d < |dependencies| && d !in order[..i + 1]
  {
    DependentsAre(dependencies, |dependencies|, order[i]);
    if d in order[..i + 1] {
      var j :| 0 <= j <= i && order[j] == d;
      assert AfterDependencies(dependencies, order, j);
      OrderedOnce(order, i, j);
    }
  }

  lemma OrderedOnce(order: seq<nat>, i: nat, j: nat)
    requires Distinct(order) && j <= i < |order|
    ensures order[i] !in order[..j]
  {
  }

  lemma DependentsInRange(dependencies: seq<seq<nat>>, t: nat)
    requires t < |dependencies|
    ensures Within(DependentsOf(dependencies)[t], |dependencies|)
  {
    DependentsAre(dependencies, |dependencies|, t);
    var ds := DependentsOf(dependencies)[t];
    forall i | 0 <= i < |ds| ensures ds[i] < |dependencies| { assert ds[i] in ds; }
  }

  /** Computes the critical paths from the back of a topological order. */
  method CriticalPaths(nodes: seq<TaskNode>, dependencies: seq<seq<nat>>, dependents: seq<seq<nat>>, order: seq<nat>)
    returns (criticalPath: seq<nat>)
    requires |nodes| == |dependencies| && InRange(dependencies) && dependents == DependentsOf(dependencies)
    requires Within(order, |nodes|) && Distinct(order) && |order| == |nodes|
    requires forall i :: AfterDependencies(dependencies, order, i)
    ensures |criticalPath| == |nodes| && forall t :: CriticalAt(nodes, dependents, criticalPath, t)
  {
    hide AfterDependencies, DependentsOf, Within, CriticalAt;
    criticalPath := seq(|nodes|, _ => 0);
    var cursor := |order|;
    while cursor > 0
      invariant 0 <= cursor <= |order| && |criticalPath| == |nodes|
      invariant forall i :: cursor <= i < |order| ==> CriticalAt(nodes, dependents, criticalPath, order[i])
    {
      cursor := cursor - 1;
      var t := order[cursor];
      InOrder(order, |nodes|, cursor);
      DependentsInRange(dependencies, t);
      var longest := LongestOf(criticalPath, dependents[t]);
      ghost var before := criticalPath;
      criticalPath := criticalPath[t := SaturatingAdd(nodes[t].estSeconds, longest)];
      CriticalStep(nodes, dependencies, order, before, cursor);
    }
    AllAppear(order, |nodes|);
    AllCritical(nodes, dependents, criticalPath, order);
  }

  lemma InOrder(order: seq<nat>, n: nat, i: nat)
    requires Within(order, n) && i < |order|
    ensures order[i] < n
  {
  }

  lemma AllCritical(nodes: seq<TaskNode>, dependents: seq<seq<nat>>, criticalPath: seq<nat>, order: seq<nat>)
    requires forall t: nat :: t < |nodes| ==> t in order
    requires forall i :: 0 <= i < |order| ==> CriticalAt(nodes, dependents, criticalPath, order[i])
    ensures forall t :: CriticalAt(nodes, dependents, criticalPath, t)
  {
    forall t: nat ensures CriticalAt(nodes, dependents, criticalPath, t) {
      if t < |nodes| {
        assert t in order;
        var i :| 0 <= i < |order| && order[i] == t;
      }
    }
  }

  lemma Earlier(order: seq<nat>, i: nat, j: nat)
    requires i < j <= |order|
    ensures order[i] in order[..j]
  {
    assert order[..j][i] == order[i];
  }

  /** The cell written at `cursor` is none of those that later cells were computed from. */
  lemma CriticalKept(nodes: seq<TaskNode>, dependencies: seq<seq<nat>>, order: seq<nat>, before: seq<nat>, cursor: nat,
    value: nat, i: nat)
    requires |nodes| == |dependencies| == |before| && InRange(dependencies)
    requires Within(order, |nodes|) && Distinct(order) && |order| == |nodes| && cursor <= i < |order|
    requires forall k :: AfterDependencies(dependencies, order, k)
    ensures var ds := DependentsOf(dependencies)[order[i]];
            Within(ds, |before|) && LongestTail(before[order[cursor] := value], ds) == LongestTail(before, ds)
    ensures i > cursor ==> order[i] != order[cursor]
  {
    hide AfterDependencies, DependentsOf, InRange, Within;
    var t := order[cursor];
    InOrder(order, |nodes|, i);
    InOrder(order, |nodes|, cursor);
    DependentsInRange(dependencies, order[i]);
    var ds := DependentsOf(dependencies)[order[i]];
    Earlier(order, cursor, i + 1);
    if t in ds { DependentsComeLater(dependencies, order, i, t); }
    TailUnaffected(before, ds, t, value);
  }

  lemma CriticalStep(nodes: seq<TaskNode>, dependencies: seq<seq<nat>>, order: seq<nat>, before: seq<nat>, cursor: nat)
    requires |nodes| == |dependencies| == |before| && InRange(dependencies)
    requires Within(order, |nodes|) && Distinct(order) && |order| == |nodes| && cursor < |order|
    requires forall i :: AfterDependencies(dependencies, order, i)
    requires Within(DependentsOf(dependencies)[order[cursor]], |before|)
    requires forall i :: cursor < i < |order| ==> CriticalAt(nodes, DependentsOf(dependencies), before, order[i])
    ensures var t := order[cursor];
            var after := before[t := SaturatingAdd(nodes[t].estSeconds, LongestTail(before, DependentsOf(dependencies)[t]))];
            forall i :: cursor <= i < |order| ==> CriticalAt(nodes, DependentsOf(dependencies), after, order[i])
  {
    hide AfterDependencies, InRange, LongestTail, SaturatingAdd, Distinct;
    InOrder(order, |nodes|, cursor);
    var t := order[cursor];
    var value := SaturatingAdd(nodes[t].estSeconds, LongestTail(before, DependentsOf(dependencies)[t]));
    forall i: nat | cursor <= i < |order|
      ensures CriticalAt(nodes, DependentsOf(dependencies), before[t := value], order[i])
    {
      hide DependentsOf, Within;
      CriticalKept(nodes, dependencies, order, before, cursor, value, i);
      if i > cursor { assert CriticalAt(nodes, DependentsOf(dependencies), before, order[i]); }
    }
  }

  method LongestOf(criticalPath: seq<nat>, tasks: seq<nat>) returns (longest: nat)
    requires Within(tasks, |criticalPath|)
    ensures longest == LongestTail(criticalPath, tasks)
  {
    longest := 0;
    for i := 0 to |tasks|
      invariant longest == LongestTail(criticalPath, tasks[..i])
    {
      assert tasks[..i + 1][..i] == tasks[..i];
      if criticalPath[tasks[i]] >= longest {
        longest := criticalPath[tasks[i]];
      }
    }
    assert tasks[..|tasks|] == tasks;
  }

  // ---- What a critical path is ----

  /** Each task of the path depends on the one before it. */
  ghost predicate IsPath(g: TaskGraph, path: seq<nat>) {
    && path != [] && |g.dependents| == |g.nodes|
    && (forall i :: 0 <= i < |path| ==> path[i] < |g.nodes|)
    && forall i :: 0 < i < |path| ==> LinkAt(g, path, i)
  }

  ghost predicate LinkAt(g: TaskGraph, path: seq<nat>, i: nat) {
    0 < i < |path| && path[i - 1] < |g.dependents| && path[i] in g.dependents[path[i - 1]]
  }

  function PathSeconds(g: TaskGraph, path: seq<nat>): nat
    requires forall i :: 0 <= i < |path| ==> path[i] < |g.nodes|
  {
    if path == [] then 0 else SaturatingAdd(g.nodes[path[0]].estSeconds, PathSeconds(g, path[1..]))
  }

  ghost predicate Critical(g: TaskGraph) {
    g.Shaped() && forall t :: CriticalAt(g.nodes, g.dependents, g.criticalPath, t)
  }

  lemma {:induction false} NoPathIsLonger(g: TaskGraph, path: seq<nat>)
    requires Critical(g) && IsPath(g, path)
    ensures PathSeconds(g, path) <= g.criticalPath[path[0]]
  {
    var t, rest := path[0], path[1..];
    assert CriticalAt(g.nodes, g.dependents, g.criticalPath, t);
    if rest != [] {
      assert LinkAt(g, path, 1);
      forall i | 0 < i < |rest| ensures LinkAt(g, rest, i) { assert LinkAt(g, path, i + 1); }
      NoPathIsLonger(g, rest);
    }
  }

  lemma {:induction false} SomePathAttains(g: TaskGraph, rank: seq<nat>, t: nat, top: nat) returns (path: seq<nat>)
    requires Critical(g) && g.Inverse() && g.Ranked(rank) && t < |g.nodes|
    requires forall u :: 0 <= u < |rank| ==> rank[u] <= top
    ensures IsPath(g, path) && path[0] == t && PathSeconds(g, path) == g.criticalPath[t]
    decreases top - rank[t]
  {
    assert CriticalAt(g.nodes, g.dependents, g.criticalPath, t);
    assert Within(g.dependents[t], |g.criticalPath|);
    if g.dependents[t] == [] {
      path := [t];
      assert path[1..] == [];
    } else {
      var d :| d in g.dependents[t] && g.criticalPath[d] == LongestTail(g.criticalPath, g.dependents[t]);
      var rest := SomePathAttains(g, rank, d, top);
      path := [t] + rest;
      assert path[1..] == rest;
      forall i | 0 < i < |path| ensures LinkAt(g, path, i) {
        if i > 1 { assert LinkAt(g, rest, i - 1); }
      }
    }
  }

  lemma {:induction false} SomeTop(rank: seq<nat>) returns (top: nat)
    ensures forall u :: 0 <= u < |rank| ==> rank[u] <= top
  {
    if rank == [] {
      top := 0;
    } else {
      top := SomeTop(rank[..|rank| - 1]);
      if rank[|rank| - 1] > top { top := rank[|rank| - 1]; }
    }
  }

  /** The critical path of a task is the most seconds, saturating, along any path of dependents from it. */
  lemma CriticalPathIsLongest(g: TaskGraph, t: nat)
    requires Critical(g) && g.Inverse() && g.Acyclic() && t < |g.nodes|
    ensures forall path :: IsPath(g, path) && path[0] == t ==> PathSeconds(g, path) <= g.criticalPath[t]
    ensures exists path :: IsPath(g, path) && path[0] == t && PathSeconds(g, path) == g.criticalPath[t]
  {
    forall path | IsPath(g, path) && path[0] == t ensures PathSeconds(g, path) <= g.criticalPath[t] {
      NoPathIsLonger(g, path);
    }
    var rank :| g.Ranked(rank);
    var top := SomeTop(rank);
    var path := SomePathAttains(g, rank, t, top);
  }

  // ---- Building ----

  method ValidateIdentities(nodes: seq<TaskNode>) returns (issue: Option<GraphIssue>)
    ensures issue.None? <==> IdentitiesValid(nodes)
    ensures issue.Some? ==> issue.value in {InvalidTaskSpec, DuplicateOrderKey} && exists t :: FailsFirstAt(nodes, t, issue.value)
  {
    var keys: set<OrderKey> := {};
    for t := 0 to |nodes|
      invariant forall u :: 0 <= u < t ==> Ascending(nodes[u].dependsOn)
      invariant keys == set u | 0 <= u < t :: nodes[u].orderKey
      invariant forall u, v :: 0 <= u < v < t ==> nodes[u].orderKey != nodes[v].orderKey
    {
      assert IdentitiesValid(nodes[..t]);
      if !Ascending(nodes[t].dependsOn) {
        assert FailsFirstAt(nodes, t, InvalidTaskSpec);
        return Some(InvalidTaskSpec);
      }
      if nodes[t].orderKey in keys {
        assert FailsFirstAt(nodes, t, DuplicateOrderKey);
        return Some(DuplicateOrderKey);
      }
      keys := keys + {nodes[t].orderKey};
    }
    return None;
  }

  method HasDuplicateId(nodes: seq<TaskNode>) returns (found: bool)
    ensures found <==> !DistinctIds(nodes)
  {
    var ids: set<string> := {};
    for t := 0 to |nodes|
      invariant ids == set u | 0 <= u < t :: nodes[u].taskId
      invariant forall u, v :: 0 <= u < v < t ==> nodes[u].taskId != nodes[v].taskId
    {
      if nodes[t].taskId in ids {
        return true;
      }
      ids := ids + {nodes[t].taskId};
    }
    return false;
  }

  /** The dependencies of each node, as task indices, or None when a name is unknown. */
  method ResolveDependencies(nodes: seq<TaskNode>) returns (r: Option<seq<seq<nat>>>)
    ensures r.Some? <==> KnownDependencies(nodes)
    ensures r.Some? ==> r.value == DependenciesOf(nodes)
  {
    var dependencies: seq<seq<nat>> := [];
    for t := 0 to |nodes|
      invariant |dependencies| == t
      invariant forall u :: 0 <= u < t ==> AllKnown(nodes, nodes[u].dependsOn)
      invariant forall u :: 0 <= u < t ==> dependencies[u] == Resolved(nodes, nodes[u].dependsOn)
    {
      var names := nodes[t].dependsOn;
      var resolved: seq<nat> := [];
      for i := 0 to |names|
        invariant |resolved| == i
        invariant forall k :: 0 <= k < i ==> FindFrom(nodes, names[k], 0) == Some(resolved[k])
      {
        var found := FindFrom(nodes, names[i], 0);
        if found.None? {
          assert !AllKnown(nodes, nodes[t].dependsOn);
          return None;
        }
        resolved := resolved + [found.value];
      }
      assert resolved == Resolved(nodes, names);
      dependencies := dependencies + [resolved];
    }
    return Some(dependencies);
  }

  method ReverseEdges(dependencies: seq<seq<nat>>) returns (dependents: seq<seq<nat>>)
    requires InRange(dependencies) && forall t :: 0 <= t < |dependencies| ==> NoRepeats(dependencies[t])
    ensures dependents == DependentsOf(dependencies)
  {
    dependents := seq(|dependencies|, _ => []);
    for t := 0 to |dependencies|
      invariant |dependents| == |dependencies|
      invariant forall d :: 0 <= d < |dependents| ==> dependents[d] == DependentsUpTo(dependencies, t, d)
    {
      ghost var before := dependents;
      var deps := dependencies[t];
      for i := 0 to |deps|
        invariant |dependents| == |dependencies|
        invariant forall d :: 0 <= d < |dependents| ==> dependents[d] == before[d] + if d in deps[..i] then [t] else []
      {
        assert deps[..i + 1] == deps[..i] + [deps[i]];
        assert deps[i] !in deps[..i];
        dependents := dependents[deps[i] := dependents[deps[i]] + [t]];
      }
      assert deps[..|deps|] == deps;
    }
  }

  /** Builds the graph exactly when the nodes make one, with every edge, and critical paths that are the
      longest paths. */
  method Build(nodes: seq<TaskNode>) returns (r: Result<TaskGraph, GraphIssue>)
    ensures r.Ok? <==> Buildable(nodes)
    ensures r.Ok? ==> r.value.Valid() && r.value.nodes == nodes && Critical(r.value)
    ensures r.Ok? ==> KnownDependencies(nodes) && r.value.dependencies == DependenciesOf(nodes)
    ensures r == Err(DependencyCycle) <==>
            IdentitiesValid(nodes) && DistinctIds(nodes) && KnownDependencies(nodes) && !NoCycle(DependenciesOf(nodes))
    ensures r == Err(MissingDependency) <==> IdentitiesValid(nodes) && DistinctIds(nodes) && !KnownDependencies(nodes)
    ensures r == Err(DuplicateTaskId) <==> IdentitiesValid(nodes) && !DistinctIds(nodes)
    ensures r.Err? && !IdentitiesValid(nodes) ==> exists t :: FailsFirstAt(nodes, t, r.error)
  {
    hide FailsFirstAt, Ascending, KnownDependencies, NoCycle, DependentsOf, DependenciesOf, DistinctIds, DistinctKeys;
    var issue := ValidateIdentities(nodes);
    if issue.Some? {
      return Err(issue.value);
    }
    var duplicate := HasDuplicateId(nodes);
    if duplicate {
      return Err(DuplicateTaskId);
    }
    var resolved := ResolveDependencies(nodes);
    if resolved.None? {
      return Err(MissingDependency);
    }
    var dependencies := resolved.value;
    ResolvedEdges(nodes);
    var dependents := ReverseEdges(dependencies);
    var order := TopologicalOrder(dependencies, dependents);
    if |order| != |nodes| {
      return Err(DependencyCycle);
    }
    var criticalPath := CriticalPaths(nodes, dependencies, dependents, order);
    BuiltIsValid(nodes, criticalPath);
    return Ok(TaskGraph(nodes, dependencies, dependents, criticalPath));
  }

  lemma ResolvedEdges(nodes: seq<TaskNode>)
    requires KnownDependencies(nodes) && forall t :: 0 <= t < |nodes| ==> Ascending(nodes[t].dependsOn)
    ensures |DependenciesOf(nodes)| == |nodes| && InRange(DependenciesOf(nodes))
    ensures forall t :: 0 <= t < |nodes| ==> NoRepeats(DependenciesOf(nodes)[t])
  {
    forall t | 0 <= t < |nodes| ensures NoRepeats(DependenciesOf(nodes)[t]) {
      ResolvedHasNoRepeats(nodes, nodes[t].dependsOn);
    }
  }

  lemma BuiltIsValid(nodes: seq<TaskNode>, criticalPath: seq<nat>)
    requires Buildable(nodes) && |criticalPath| == |nodes|
    ensures GraphOf(nodes, DependenciesOf(nodes), criticalPath).Valid()
  {
    var dependencies := DependenciesOf(nodes);
    var g := GraphOf(nodes, dependencies, criticalPath);
    ResolvedEdges(nodes);
    EdgesAreInverse(nodes, dependencies, criticalPath);
    var rank :| Ranks(dependencies, rank);
    assert g.Ranked(rank);
    NamesAreDistinct(nodes, g);
  }

  lemma NamesAreDistinct(nodes: seq<TaskNode>, g: TaskGraph)
    requires g.nodes == nodes && DistinctIds(nodes) && DistinctKeys(nodes)
    ensures g.DistinctNames()
  {
    forall t, u | 0 <= t < |nodes| && 0 <= u < |nodes| && t != u
      ensures nodes[t].taskId != nodes[u].taskId && nodes[t].orderKey != nodes[u].orderKey
    {
      if t < u { assert nodes[t].taskId != nodes[u].taskId; } else { assert nodes[u].taskId != nodes[t].taskId; }
    }
  }
}
