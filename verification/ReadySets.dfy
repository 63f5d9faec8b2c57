/** Which tasks are unblocked, kept by counting each task's incomplete dependencies (ready_set.cpp). */
module ReadySets {
  import opened Basics
  import opened TaskGraphs
  import opened Sorting

  /** How many entries of `deps` are not in `done`. */
  function Pending(deps: seq<nat>, done: set<nat>): nat {
    if deps == [] then 0 else Pending(deps[1..], done) + if deps[0] in done then 0 else 1
  }

  lemma {:induction false} PendingZero(deps: seq<nat>, done: set<nat>)
    ensures Pending(deps, done) == 0 <==> forall d :: d in deps ==> d in done
  {
    if deps != [] {
      PendingZero(deps[1..], done);
      assert forall d :: d in deps <==> d == deps[0] || d in deps[1..];
    }
  }

  /** Completing `t` lowers the count of a task by one when it depends on `t`, and not otherwise. */
  lemma {:induction false} PendingCompleted(deps: seq<nat>, done: set<nat>, t: nat)
    requires NoRepeats(deps) && t !in done
    ensures Pending(deps, done + {t}) == Pending(deps, done) - if t in deps then 1 else 0
  {
    if deps != [] {
      PendingCompleted(deps[1..], done, t);
      assert forall d :: d in deps <==> d == deps[0] || d in deps[1..];
      assert deps[0] !in deps[1..];
    }
  }

  function Less(): (nat, nat) -> bool { (x: nat, y: nat) => x < y }

  datatype Repeated = CompletedTwice

  ghost predicate Awaited(pending: seq<nat>, d: nat) {
    d < |pending| && pending[d] > 0
  }

  /** `after` counts one less than `before` for each of `dependents`. */
  ghost predicate CountsDown(before: seq<nat>, after: seq<nat>, dependents: seq<nat>, t: nat) {
    t < |before| && t < |after| ==> before[t] == after[t] + if t in dependents then 1 else 0
  }

  /** Takes one off the count of each of `dependents`, listing those that reach zero. */
  method CountDown(before: seq<nat>, dependents: seq<nat>) returns (pending: seq<nat>, ready: seq<nat>)
    requires NoRepeats(dependents) && forall d :: d in dependents ==> Awaited(before, d)
    ensures |pending| == |before| && forall t :: CountsDown(before, pending, dependents, t)
    ensures Distinct(ready)
    ensures forall d :: d in ready <==> d in dependents && d < |pending| && pending[d] == 0
  {
    pending, ready := before, [];
    var i := 0;
    while i < |dependents|
      invariant 0 <= i <= |dependents|
      invariant |pending| == |before|
      invariant forall t :: CountsDown(before, pending, dependents[..i], t)
      invariant Distinct(ready)
      invariant forall d :: d in ready <==> d in dependents[..i] && d < |pending| && pending[d] == 0
    {
      var dependent := dependents[i];
      assert dependent !in dependents[..i] && Awaited(before, dependent);
      assert CountsDown(before, pending, dependents[..i], dependent);
      ghost var earlier := pending;
      pending := pending[dependent := pending[dependent] - 1];
      if pending[dependent] == 0 {
        ready := ready + [dependent];
      }
      ghost var counted := dependents[..i + 1];
      assert counted == dependents[..i] + [dependent];
      forall t ensures CountsDown(before, pending, counted, t) {
        assert CountsDown(before, earlier, dependents[..i], t);
      }
      i := i + 1;
    }
    assert dependents[..i] == dependents;
  }

  class ReadySet {
    const graph: TaskGraph
    var pending: seq<nat>
    var complete: seq<bool>
    var completedCount: nat

    function Done(): set<nat>
      reads this
    {
      set t: nat | t < |complete| && complete[t]
    }

    ghost predicate Counted(t: nat)
      reads this
    {
      t < |pending| && t < |graph.dependencies| ==> pending[t] == Pending(graph.dependencies[t], Done())
    }

    ghost predicate Valid()
      reads this
    {
      && graph.Shaped() && graph.Inverse()
      && |pending| == |complete| == graph.Size()
      && completedCount == |Done()|
      && forall t :: Counted(t)
    }

    constructor (graph: TaskGraph)
      requires graph.Shaped() && graph.Inverse()
      ensures Valid() && this.graph == graph && Done() == {}
    {
      var n := graph.Size();
      var counts: seq<nat> := [];
      while |counts| < n
        invariant |counts| <= n
        invariant forall t :: 0 <= t < |counts| ==> counts[t] == |graph.dependencies[t]|
      {
        counts := counts + [|graph.dependencies[|counts|]|];
      }
      this.graph := graph;
      pending := counts;
      complete := seq(n, _ => false);
      completedCount := 0;
      new;
      forall t: nat ensures Counted(t) {
        if t < |pending| {
          NothingDone(graph.dependencies[t]);
          assert Done() == {};
        }
      }
    }

    predicate AllComplete()
      reads this
    {
      completedCount == graph.Size()
    }

    /** The counters are right again after one completion. */
    lemma Recounted(done: set<nat>, before: seq<nat>, index: nat)
      requires graph.Shaped() && graph.Inverse() && index < graph.Size() && |before| == |pending| == graph.Size()
      requires index !in done && Done() == done + {index}
      requires forall t :: 0 <= t < |before| ==> before[t] == Pending(graph.dependencies[t], done)
      requires forall t :: CountsDown(before, pending, graph.dependents[index], t)
      ensures forall t :: Counted(t)
      ensures forall d :: d in graph.dependents[index] ==> (pending[d] == 0 <==> graph.Unblocked(d, Done()))
    {
      forall t: nat ensures Counted(t) {
        if t < |pending| {
          assert CountsDown(before, pending, graph.dependents[index], t);
          PendingCompleted(graph.dependencies[t], done, index);
        }
      }
      forall d | d in graph.dependents[index] ensures pending[d] == 0 <==> graph.Unblocked(d, Done()) {
        assert Counted(d);
        PendingZero(graph.dependencies[d], Done());
      }
    }

    /** Exactly the dependents whose last incomplete dependency was `index`, in ascending order; a second
        completion is refused and changes nothing. */
    method Complete(index: nat) returns (r: Result<seq<nat>, Repeated>)
      requires Valid() && index < graph.Size()
      modifies this
      ensures Valid()
      ensures r.Ok? <==> index !in old(Done())
      ensures r.Ok? ==> Done() == old(Done()) + {index}
      ensures r.Ok? ==> Increasing(Less(), r.value)
      ensures r.Ok? ==> forall d :: d in r.value <==> d in graph.dependents[index] && graph.Unblocked(d, Done())
      ensures r.Err? ==> Done() == old(Done())
    {
      if complete[index] {
        return Err(CompletedTwice);
      }
      ghost var done, before := Done(), pending;
      complete := complete[index := true];
      completedCount := completedCount + 1;
      assert Done() == done + {index};
      forall d | d in graph.dependents[index] ensures Awaited(before, d) {
        assert old(Counted(d));
        PendingZero(graph.dependencies[d], done);
      }
      var after, ready := CountDown(pending, graph.dependents[index]);
      pending := after;
      forall t: nat | t < |before| ensures before[t] == Pending(graph.dependencies[t], done) {
        assert old(Counted(t));
      }
      Recounted(done, before, index);
      SortByMembers(Less(), ready);
      SortByIncreasing(Less(), ready, Members(ready));
      var sorted := SortBy(Less(), ready);
      assert forall d :: d in sorted <==> d in Members(sorted);
      return Ok(sorted);
    }
  }

  lemma {:induction false} NothingDone(deps: seq<nat>)
    ensures Pending(deps, {}) == |deps|
  {
    if deps != [] { NothingDone(deps[1..]); }
  }
}
