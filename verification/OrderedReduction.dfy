/** The results of one lane in canonical order, whatever order they arrived in (ordered_reduction.cpp). */
module OrderedReduction {
  import opened Basics
  import opened ResultVerification
  import opened TaskGraphs
  import opened Sorting
  import opened ReadyQueues

  datatype ReductionError = UnknownTask(taskId: string) | SecondResult(taskId: string) | NoResult(taskId: string)

  function TaskIdOf(c: CommittedResult): string { c.output.result.taskId }

  function KeyOrder(g: TaskGraph): (nat, nat) -> bool {
    (a: nat, b: nat) => a < |g.nodes| && b < |g.nodes| && KeyBefore(g.nodes[a].orderKey, g.nodes[b].orderKey)
  }

  lemma KeyOrderIsLinear(g: TaskGraph)
    requires g.DistinctNames()
    ensures Linear(KeyOrder(g), TasksOf(g))
  {
    forall x, y, z | x in TasksOf(g) && y in TasksOf(g) && z in TasksOf(g)
      ensures !KeyOrder(g)(x, x)
      ensures x != y ==> KeyOrder(g)(x, y) || KeyOrder(g)(y, x)
      ensures KeyOrder(g)(x, y) && KeyOrder(g)(y, z) ==> KeyOrder(g)(x, z)
    {
      KeysAreLinear(g.nodes[x].orderKey, g.nodes[y].orderKey, g.nodes[z].orderKey);
    }
  }

  predicate InLane(g: TaskGraph, lane: string, t: nat) {
    t < |g.nodes| && g.nodes[t].orderKey.lane == lane
  }

  ghost predicate HasResult(results: seq<CommittedResult>, taskId: string) {
    exists i :: 0 <= i < |results| && TaskIdOf(results[i]) == taskId
  }

  /** Each result names a task of the graph, no two the same task. */
  ghost predicate Unambiguous(g: TaskGraph, results: seq<CommittedResult>) {
    && (forall i :: 0 <= i < |results| ==> Find(g, TaskIdOf(results[i])).Some?)
    && (forall i, j :: 0 <= i < j < |results| ==> TaskIdOf(results[i]) != TaskIdOf(results[j]))
  }

  ghost predicate NoGaps(g: TaskGraph, lane: string, results: seq<CommittedResult>) {
    forall t: nat :: InLane(g, lane, t) ==> HasResult(results, g.nodes[t].taskId)
  }

  predicate ResultOf(g: TaskGraph, results: seq<CommittedResult>, t: nat, c: CommittedResult) {
    t < |g.nodes| && c in results && TaskIdOf(c) == g.nodes[t].taskId
  }

  /** `tasks` are the lane's tasks by order key, and `ordered` their results. */
  ghost predicate Canonical(g: TaskGraph, lane: string, results: seq<CommittedResult>,
                            tasks: seq<nat>, ordered: seq<CommittedResult>) {
    && Increasing(KeyOrder(g), tasks)
    && (forall t: nat :: t in tasks <==> InLane(g, lane, t))
    && |ordered| == |tasks|
    && forall k :: 0 <= k < |ordered| ==> ResultOf(g, results, tasks[k], ordered[k])
  }

  /** The lane's tasks are the same sequence for whatever results. */
  lemma LaneTasksAreUnique(g: TaskGraph, lane: string, a: seq<CommittedResult>, tasksA: seq<nat>, ra: seq<CommittedResult>,
                           b: seq<CommittedResult>, tasksB: seq<nat>, rb: seq<CommittedResult>)
    requires g.DistinctNames() && Canonical(g, lane, a, tasksA, ra) && Canonical(g, lane, b, tasksB, rb)
    ensures tasksA == tasksB
  {
    KeyOrderIsLinear(g);
    IncreasingIsUnique(KeyOrder(g), tasksA, tasksB, TasksOf(g));
  }

  /** A task appears at the same place of the lane with the same digest, if results of a task agree on it:
      with the schedule-independence of builds, every build feeds a reducer the same sequence. */
  lemma SameLaneSequence(g: TaskGraph, lane: string, a: seq<CommittedResult>, tasksA: seq<nat>, ra: seq<CommittedResult>,
                         b: seq<CommittedResult>, tasksB: seq<nat>, rb: seq<CommittedResult>)
    requires g.DistinctNames() && Canonical(g, lane, a, tasksA, ra) && Canonical(g, lane, b, tasksB, rb)
    requires forall x, y :: x in a && y in b && TaskIdOf(x) == TaskIdOf(y) ==>
                              x.output.result.outputDigest == y.output.result.outputDigest
    ensures |ra| == |rb|
    ensures forall k :: 0 <= k < |ra| ==> && TaskIdOf(ra[k]) == TaskIdOf(rb[k])
                                          && ra[k].output.result.outputDigest == rb[k].output.result.outputDigest
  {
    LaneTasksAreUnique(g, lane, a, tasksA, ra, b, tasksB, rb);
  }

  lemma PermutedMembers<T>(a: seq<T>, b: seq<T>)
    requires multiset(a) == multiset(b)
    ensures forall x :: x in a <==> x in b
    ensures |a| == |b|
  {
    forall x ensures x in a <==> x in b {
      assert x in multiset(a) <==> x in a;
      assert x in multiset(b) <==> x in b;
    }
    assert |multiset(a)| == |a| && |multiset(b)| == |b|;
  }

  lemma OneResultPerTask(g: TaskGraph, results: seq<CommittedResult>, x: CommittedResult, y: CommittedResult)
    requires Unambiguous(g, results) && x in results && y in results && TaskIdOf(x) == TaskIdOf(y)
    ensures x == y
  {
  }

  /** Two places with one element are two in the multiset. */
  lemma SeenTwice<T>(s: seq<T>, i: nat, j: nat)
    requires i < j < |s| && s[i] == s[j]
    ensures multiset(s)[s[i]] >= 2
  {
    assert s == s[..j] + s[j..];
    assert s[i] == s[..j][i] && s[j] == s[j..][0];
    assert multiset(s[..j])[s[i]] >= 1 && multiset(s[j..])[s[i]] >= 1;
  }

  lemma {:induction false} SeenOnce<T>(s: seq<T>, x: T)
    requires Distinct(s)
    ensures multiset(s)[x] <= 1
  {
    if s != [] {
      var n := |s| - 1;
      SeenOnce(s[..n], x);
      assert s == s[..n] + [s[n]];
      if x == s[n] { assert x !in s[..n]; }
    }
  }

  lemma PermutedUnambiguous(g: TaskGraph, a: seq<CommittedResult>, b: seq<CommittedResult>)
    requires multiset(a) == multiset(b) && Unambiguous(g, a)
    ensures Unambiguous(g, b)
  {
    PermutedMembers(a, b);
    assert forall i :: 0 <= i < |b| ==> b[i] in a;
    forall i, j | 0 <= i < j < |b| ensures TaskIdOf(b[i]) != TaskIdOf(b[j]) {
      if TaskIdOf(b[i]) == TaskIdOf(b[j]) {
        OneResultPerTask(g, a, b[i], b[j]);
        SeenTwice(b, i, j);
        SeenOnce(a, b[i]);
      }
    }
  }

  lemma PermutedNoGaps(g: TaskGraph, lane: string, a: seq<CommittedResult>, b: seq<CommittedResult>)
    requires multiset(a) == multiset(b) && NoGaps(g, lane, a)
    ensures NoGaps(g, lane, b)
  {
    PermutedMembers(a, b);
    forall t: nat | InLane(g, lane, t) ensures HasResult(b, g.nodes[t].taskId) {
      assert HasResult(a, g.nodes[t].taskId);
      var i :| 0 <= i < |a| && TaskIdOf(a[i]) == g.nodes[t].taskId;
      assert a[i] in b;
    }
  }

  /** Arrival order is never observable: permuted results are refused exactly when the original ones are, and
      otherwise give the same sequence. */
  lemma ArrivalOrderIsUnobservable(g: TaskGraph, lane: string, a: seq<CommittedResult>, tasksA: seq<nat>,
                                   ra: seq<CommittedResult>, b: seq<CommittedResult>, tasksB: seq<nat>, rb: seq<CommittedResult>)
    requires g.DistinctNames() && multiset(a) == multiset(b)
    ensures Unambiguous(g, a) && NoGaps(g, lane, a) <==> Unambiguous(g, b) && NoGaps(g, lane, b)
    ensures Unambiguous(g, a) && Canonical(g, lane, a, tasksA, ra) && Canonical(g, lane, b, tasksB, rb) ==> ra == rb
  {
    hide NoGaps;
    if Unambiguous(g, a) { PermutedUnambiguous(g, a, b); }
    if Unambiguous(g, b) { PermutedUnambiguous(g, b, a); }
    if NoGaps(g, lane, a) { PermutedNoGaps(g, lane, a, b); }
    if NoGaps(g, lane, b) { PermutedNoGaps(g, lane, b, a); }
    PermutedMembers(a, b);
    if Unambiguous(g, a) && Canonical(g, lane, a, tasksA, ra) && Canonical(g, lane, b, tasksB, rb) {
      LaneTasksAreUnique(g, lane, a, tasksA, ra, b, tasksB, rb);
      forall k | 0 <= k < |ra| ensures ra[k] == rb[k] {
        OneResultPerTask(g, a, ra[k], rb[k]);
      }
    }
  }

  /** `byTask[t]` is the result of task `t` among the first `n`. */
  ghost predicate Filed(g: TaskGraph, results: seq<CommittedResult>, n: nat, byTask: seq<Option<CommittedResult>>, t: nat) {
    t < |g.nodes| && t < |byTask| && n <= |results| ==>
      match byTask[t]
      case Some(c) => c in results[..n] && TaskIdOf(c) == g.nodes[t].taskId
      case None => forall i :: 0 <= i < n ==> TaskIdOf(results[i]) != g.nodes[t].taskId
  }

  lemma FiledMore(g: TaskGraph, results: seq<CommittedResult>, n: nat, before: seq<Option<CommittedResult>>, t: nat, u: nat)
    requires g.DistinctNames() && 0 < n <= |results| && t < |g.nodes| == |before|
    requires TaskIdOf(results[n - 1]) == g.nodes[t].taskId
    requires Filed(g, results, n - 1, before, u)
    ensures Filed(g, results, n, before[t := Some(results[n - 1])], u)
  {
    var earlier := n - 1;
    assert Filed(g, results, earlier, before, u);
    assert results[..n] == results[..earlier] + [results[earlier]];
    assert u < |g.nodes| && u != t ==> g.nodes[u].taskId != g.nodes[t].taskId;
  }

  /** What is wrong first: a result of no task, a second result of a task, or a task of the lane without one. */
  ghost predicate FirstFault(g: TaskGraph, lane: string, results: seq<CommittedResult>, error: ReductionError) {
    match error
    case UnknownTask(id) =>
      exists i :: 0 <= i < |results| && TaskIdOf(results[i]) == id && Find(g, id).None? && Unambiguous(g, results[..i])
    case SecondResult(id) =>
      exists i, j :: 0 <= j < i < |results| && TaskIdOf(results[i]) == TaskIdOf(results[j]) == id && Unambiguous(g, results[..i])
    case NoResult(id) =>
      && Unambiguous(g, results)
      && exists t: nat :: InLane(g, lane, t) && g.nodes[t].taskId == id && !HasResult(results, id)
                          && forall u: nat :: u < t && InLane(g, lane, u) ==> HasResult(results, g.nodes[u].taskId)
  }

  method FileByTask(g: TaskGraph, ghost lane: string, results: seq<CommittedResult>) returns (r: Result<array<Option<CommittedResult>>, ReductionError>)
    requires g.DistinctNames()
    ensures r.Ok? <==> Unambiguous(g, results)
    ensures r.Err? ==> FirstFault(g, lane, results, r.error)
    ensures r.Ok? ==> fresh(r.value) && r.value.Length == |g.nodes|
                      && forall t :: Filed(g, results, |results|, r.value[..], t)
  {
    var byTask := new Option<CommittedResult>[|g.nodes|](_ => None);
    var i := 0;
    while i < |results|
      invariant 0 <= i <= |results|
      invariant Unambiguous(g, results[..i])
      invariant forall t :: Filed(g, results, i, byTask[..], t)
    {
      var id := TaskIdOf(results[i]);
      var index := Find(g, id);
      assert results[..i + 1][i] == results[i];
      if index.None? {
        return Err(UnknownTask(id));
      }
      var t := index.value;
      assert Filed(g, results, i, byTask[..], t);
      if byTask[t].Some? {
        Ambiguous(g, results, i, byTask[t].value);
        SecondOne(g, lane, results, i, byTask[t].value);
        return Err(SecondResult(id));
      }
      ghost var before := byTask[..];
      byTask[t] := Some(results[i]);
      assert results[..i + 1] == results[..i] + [results[i]];
      StillUnambiguous(g, results[..i], results[i]);
      i := i + 1;
      forall u: nat ensures Filed(g, results, i, byTask[..], u) {
        assert Filed(g, results, i - 1, before, u);
        FiledMore(g, results, i, before, t, u);
      }
    }
    assert results[..i] == results;
    return Ok(byTask);
  }

  lemma SecondOne(g: TaskGraph, lane: string, results: seq<CommittedResult>, i: nat, c: CommittedResult)
    requires i < |results| && c in results[..i] && TaskIdOf(c) == TaskIdOf(results[i]) && Unambiguous(g, results[..i])
    ensures FirstFault(g, lane, results, SecondResult(TaskIdOf(results[i])))
  {
    var j :| 0 <= j < i && results[j] == c;
  }

  lemma Ambiguous(g: TaskGraph, results: seq<CommittedResult>, i: nat, c: CommittedResult)
    requires i < |results| && c in results[..i] && TaskIdOf(c) == TaskIdOf(results[i])
    ensures !Unambiguous(g, results)
  {
    var j :| 0 <= j < i && results[j] == c;
  }

  lemma StillUnambiguous(g: TaskGraph, results: seq<CommittedResult>, c: CommittedResult)
    requires Unambiguous(g, results) && Find(g, TaskIdOf(c)).Some?
    requires forall i :: 0 <= i < |results| ==> TaskIdOf(results[i]) != TaskIdOf(c)
    ensures Unambiguous(g, results + [c])
  {
  }

  /** Task `t` is the first of the lane without a result. */
  ghost predicate LacksFirst(g: TaskGraph, lane: string, byTask: seq<Option<CommittedResult>>, t: nat) {
    && InLane(g, lane, t) && t < |byTask| && byTask[t].None?
    && forall u: nat :: u < t && InLane(g, lane, u) ==> byTask[u].Some?
  }

  lemma LackIsFault(g: TaskGraph, lane: string, results: seq<CommittedResult>, byTask: seq<Option<CommittedResult>>, t: nat)
    requires Unambiguous(g, results) && |byTask| == |g.nodes| && forall u :: Filed(g, results, |results|, byTask, u)
    requires LacksFirst(g, lane, byTask, t)
    ensures FirstFault(g, lane, results, NoResult(g.nodes[t].taskId))
  {
    hide Unambiguous;
    forall u: nat | InLane(g, lane, u) ensures byTask[u].Some? <==> HasResult(results, g.nodes[u].taskId) {
      assert Filed(g, results, |results|, byTask, u);
    }
  }

  /** The lane's tasks, all of which have a result, or the first that has none. */
  method CollectLane(g: TaskGraph, lane: string, byTask: array<Option<CommittedResult>>) returns (r: Result<seq<nat>, ReductionError>)
    requires byTask.Length == |g.nodes|
    ensures r.Ok? <==> forall t: nat :: InLane(g, lane, t) && t < byTask.Length ==> byTask[t].Some?
    ensures r.Ok? ==> Distinct(r.value) && forall t: nat :: t in r.value <==> InLane(g, lane, t)
    ensures r.Err? ==> exists t: nat :: LacksFirst(g, lane, byTask[..], t) && r.error == NoResult(g.nodes[t].taskId)
  {
    var inLane: seq<nat> := [];
    for t := 0 to |g.nodes|
      invariant Distinct(inLane)
      invariant forall u: nat :: u in inLane <==> u < t && InLane(g, lane, u)
      invariant forall u: nat :: u < t && InLane(g, lane, u) ==> byTask[u].Some?
    {
      if g.nodes[t].orderKey.lane == lane {
        assert InLane(g, lane, t);
        if byTask[t].None? {
          assert LacksFirst(g, lane, byTask[..], t);
          return Err(NoResult(g.nodes[t].taskId));
        }
        inLane := inLane + [t];
      }
    }
    return Ok(inLane);
  }

  lemma SortedLane(g: TaskGraph, lane: string, inLane: seq<nat>)
    requires g.DistinctNames() && Distinct(inLane) && forall t: nat :: t in inLane <==> InLane(g, lane, t)
    ensures var tasks := SortBy(KeyOrder(g), inLane);
            Increasing(KeyOrder(g), tasks) && forall t: nat :: t in tasks <==> InLane(g, lane, t)
  {
    KeyOrderIsLinear(g);
    assert Members(inLane) <= TasksOf(g);
    SortByIncreasing(KeyOrder(g), inLane, TasksOf(g));
    SortByMembers(KeyOrder(g), inLane);
    forall t: nat ensures t in SortBy(KeyOrder(g), inLane) <==> t in inLane {
      assert t in Members(SortBy(KeyOrder(g), inLane)) <==> t in Members(inLane);
    }
  }

  lemma GapsAreMissing(g: TaskGraph, lane: string, results: seq<CommittedResult>, byTask: seq<Option<CommittedResult>>)
    requires |byTask| == |g.nodes| && forall t :: Filed(g, results, |results|, byTask, t)
    ensures NoGaps(g, lane, results) <==> forall t: nat :: InLane(g, lane, t) && t < |byTask| ==> byTask[t].Some?
  {
    forall t: nat | InLane(g, lane, t) ensures byTask[t].Some? <==> HasResult(results, g.nodes[t].taskId) {
      assert Filed(g, results, |results|, byTask, t);
    }
  }

  /** The lane's results by order key; refused when a result is of no task or a second one of a task, or when
      a task of the lane has none. */
  method ResultsInCanonicalOrder(g: TaskGraph, lane: string, results: seq<CommittedResult>)
    returns (r: Result<seq<CommittedResult>, ReductionError>, ghost tasks: seq<nat>)
    requires g.DistinctNames()
    ensures r.Ok? <==> Unambiguous(g, results) && NoGaps(g, lane, results)
    ensures r.Err? ==> FirstFault(g, lane, results, r.error)
    ensures r.Ok? ==> Canonical(g, lane, results, tasks, r.value)
  {
    hide Unambiguous, NoGaps, FirstFault;
    tasks := [];
    var filed := FileByTask(g, lane, results);
    if filed.Err? {
      return Err(filed.error), tasks;
    }
    var byTask := filed.value;
    GapsAreMissing(g, lane, results, byTask[..]);
    var inLane := CollectLane(g, lane, byTask);
    if inLane.Err? {
      ghost var t: nat :| LacksFirst(g, lane, byTask[..], t) && inLane.error == NoResult(g.nodes[t].taskId);
      LackIsFault(g, lane, results, byTask[..], t);
      return Err(inLane.error), tasks;
    }
    var sorted := SortBy(KeyOrder(g), inLane.value);
    SortedLane(g, lane, inLane.value);
    tasks := sorted;
    var ordered: seq<CommittedResult> := [];
    for k := 0 to |sorted|
      invariant |ordered| == k
      invariant forall j :: 0 <= j < k ==> ResultOf(g, results, sorted[j], ordered[j])
    {
      assert sorted[k] in sorted && Filed(g, results, |results|, byTask[..], sorted[k]);
      assert results[..|results|] == results;
      ordered := ordered + [byTask[sorted[k]].value];
    }
    return Ok(ordered), tasks;
  }
}
