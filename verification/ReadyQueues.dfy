/** Ready tasks in dispatch order: longest critical path first, then canonical position (ready_queue.hpp). */
module ReadyQueues {
  import opened TaskGraphs
  import opened Sorting

  predicate LexBefore<T(==)>(less: (T, T) -> bool, a: seq<T>, b: seq<T>) {
    if b == [] then false
    else if a == [] then true
    else less(a[0], b[0]) || (a[0] == b[0] && LexBefore(less, a[1..], b[1..]))
  }

  ghost predicate StrictTotal<T(!new)>(less: (T, T) -> bool) {
    && (forall x :: !less(x, x))
    && (forall x, y :: x != y ==> less(x, y) || less(y, x))
    && (forall x, y, z :: less(x, y) && less(y, z) ==> less(x, z))
  }

  lemma {:induction false} LexTransitive<T(!new)>(less: (T, T) -> bool, a: seq<T>, b: seq<T>, c: seq<T>)
    requires StrictTotal(less) && LexBefore(less, a, b) && LexBefore(less, b, c)
    ensures LexBefore(less, a, c)
  {
    if a != [] && a[0] == b[0] == c[0] {
      LexTransitive(less, a[1..], b[1..], c[1..]);
    }
  }

  lemma {:induction false} LexTotal<T(!new)>(less: (T, T) -> bool, a: seq<T>, b: seq<T>)
    requires StrictTotal(less)
    ensures a != b ==> LexBefore(less, a, b) || LexBefore(less, b, a)
    ensures !LexBefore(less, a, a)
  {
    if a != [] {
      LexTotal(less, a[1..], if b != [] then b[1..] else []);
      if b != [] && a[0] == b[0] && a != b {
        assert a == [a[0]] + a[1..] && b == [b[0]] + b[1..];
      }
    }
  }

  /** The first place where two sequences part decides: the shorter one ends there, or the lesser element stands there. */
  ghost predicate PartAt<T(!new)>(less: (T, T) -> bool, a: seq<T>, b: seq<T>, n: nat) {
    n <= |a| && n < |b| && a[..n] == b[..n] && (n < |a| ==> a[n] != b[n] && less(a[n], b[n]))
  }

  lemma {:induction false} LexMeans<T(!new)>(less: (T, T) -> bool, a: seq<T>, b: seq<T>)
    requires StrictTotal(less)
    ensures LexBefore(less, a, b) <==> exists n :: PartAt(less, a, b, n)
  {
    if b != [] && a != [] {
      LexMeans(less, a[1..], b[1..]);
      if a[0] == b[0] {
        forall n: nat ensures PartAt(less, a[1..], b[1..], n) <==> PartAt(less, a, b, n + 1) { PartsLater(less, a, b, n); }
        if n: nat :| PartAt(less, a[1..], b[1..], n) { assert PartAt(less, a, b, n + 1); }
        if n: nat :| PartAt(less, a, b, n) { assert n > 0 && PartAt(less, a[1..], b[1..], n - 1); }
      } else {
        if n: nat :| PartAt(less, a, b, n) { AgreeBefore(less, a, b, n); }
        if less(a[0], b[0]) { assert PartAt(less, a, b, 0); }
      }
    } else if b != [] {
      assert PartAt(less, a, b, 0);
    }
  }

  lemma AgreeBefore<T(!new)>(less: (T, T) -> bool, a: seq<T>, b: seq<T>, n: nat)
    requires PartAt(less, a, b, n) && a != [] && b != []
    ensures n > 0 ==> a[0] == b[0]
  {
    if n > 0 { assert a[..n][0] == a[0] && b[..n][0] == b[0]; }
  }

  lemma PartsLater<T(!new)>(less: (T, T) -> bool, a: seq<T>, b: seq<T>, n: nat)
    requires a != [] && b != [] && a[0] == b[0]
    ensures PartAt(less, a[1..], b[1..], n) <==> PartAt(less, a, b, n + 1)
  {
    if n < |a| && n < |b| {
      assert a[..n + 1] == [a[0]] + a[1..][..n] && b[..n + 1] == [b[0]] + b[1..][..n];
      assert a[..n + 1][1..] == a[1..][..n] && b[..n + 1][1..] == b[1..][..n];
    }
  }

  function CharLess(): (char, char) -> bool { (x, y) => x < y }

  function NatLess(): (nat, nat) -> bool { (x, y) => x < y }

  /** The canonical order of order keys: by lane, then by ordinals. */
  predicate KeyBefore(a: OrderKey, b: OrderKey) {
    if a.lane != b.lane then LexBefore(CharLess(), a.lane, b.lane) else LexBefore(NatLess(), a.ordinals, b.ordinals)
  }

  lemma KeysAreLinear(a: OrderKey, b: OrderKey, c: OrderKey)
    ensures !KeyBefore(a, a)
    ensures a != b ==> KeyBefore(a, b) || KeyBefore(b, a)
    ensures KeyBefore(a, b) && KeyBefore(b, c) ==> KeyBefore(a, c)
  {
    LexTotal(CharLess(), a.lane, b.lane);
    LexTotal(NatLess(), a.ordinals, b.ordinals);
    if KeyBefore(a, b) && KeyBefore(b, c) {
      if a.lane != b.lane && b.lane != c.lane {
        LexTransitive(CharLess(), a.lane, b.lane, c.lane);
        LexTotal(CharLess(), c.lane, a.lane);
      }
      if a.lane == b.lane == c.lane {
        LexTransitive(NatLess(), a.ordinals, b.ordinals, c.ordinals);
      }
    }
  }

  predicate Before(g: TaskGraph, a: nat, b: nat) {
    && a < |g.nodes| && b < |g.nodes| && a < |g.criticalPath| && b < |g.criticalPath|
    && if g.criticalPath[a] != g.criticalPath[b] then g.criticalPath[a] > g.criticalPath[b]
       else KeyBefore(g.nodes[a].orderKey, g.nodes[b].orderKey)
  }

  /** A longer critical path goes first; of equal ones the lane and then the ordinals decide where they first part. */
  ghost predicate GoesFirst(g: TaskGraph, a: nat, b: nat)
    requires g.Shaped() && a < g.Size() && b < g.Size()
  {
    var x, y := g.nodes[a].orderKey, g.nodes[b].orderKey;
    || g.criticalPath[a] > g.criticalPath[b]
    || (g.criticalPath[a] == g.criticalPath[b]
        && if x.lane == y.lane then exists n :: PartAt(NatLess(), x.ordinals, y.ordinals, n)
           else exists n :: PartAt(CharLess(), x.lane, y.lane, n))
  }

  /** The dispatch order is that order. */
  lemma BeforeMeans(g: TaskGraph, a: nat, b: nat)
    requires g.Shaped() && a < g.Size() && b < g.Size()
    ensures Before(g, a, b) <==> GoesFirst(g, a, b)
  {
    LexMeans(CharLess(), g.nodes[a].orderKey.lane, g.nodes[b].orderKey.lane);
    LexMeans(NatLess(), g.nodes[a].orderKey.ordinals, g.nodes[b].orderKey.ordinals);
  }

  function Order(g: TaskGraph): (nat, nat) -> bool { (a: nat, b: nat) => Before(g, a, b) }

  ghost function TasksOf(g: TaskGraph): set<nat> {
    Below(|g.nodes|)
  }

  lemma OrderIsLinear(g: TaskGraph)
    requires g.Shaped() && g.DistinctNames()
    ensures Linear(Order(g), TasksOf(g))
  {
    forall x, y, z | x in TasksOf(g) && y in TasksOf(g) && z in TasksOf(g)
      ensures !Before(g, x, x)
      ensures x != y ==> Before(g, x, y) || Before(g, y, x)
      ensures Before(g, x, y) && Before(g, y, z) ==> Before(g, x, z)
    {
      KeysAreLinear(g.nodes[x].orderKey, g.nodes[y].orderKey, g.nodes[z].orderKey);
    }
    forall x | x in TasksOf(g) ensures !Order(g)(x, x) { assert !Before(g, x, x); }
    forall x, y | x in TasksOf(g) && y in TasksOf(g) && x != y ensures Order(g)(x, y) || Order(g)(y, x) {
      assert Before(g, x, y) || Before(g, y, x);
    }
  }

  lemma Without(before: (nat, nat) -> bool, s: seq<nat>, i: nat, among: set<nat>)
    requires Linear(before, among) && Members(s) <= among && Increasing(before, s) && i < |s|
    ensures var rest := s[..i] + s[i + 1..];
            && Increasing(before, rest) && Members(rest) == Members(s) - {s[i]}
            && forall t :: t in rest <==> t in s && t != s[i]
  {
    IncreasingDistinct(before, s, among);
    var rest := s[..i] + s[i + 1..];
    assert forall k :: 0 <= k < |rest| ==> rest[k] == s[if k < i then k else k + 1];
    hide Linear;
    forall t ensures t in rest <==> t in s && t != s[i] {
      if t in s && t != s[i] {
        var k :| 0 <= k < |s| && s[k] == t;
        assert rest[if k < i then k else k - 1] == t;
      }
    }
  }

  /** The queue keeps its tasks in dispatch order. */
  class ReadyQueue {
    const graph: TaskGraph
    var tasks: seq<nat>

    ghost predicate Valid()
      reads this
    {
      && graph.Shaped() && graph.DistinctNames()
      && Members(tasks) <= TasksOf(graph)
      && Increasing(Order(graph), tasks)
    }

    function Contents(): set<nat>
      reads this
    {
      set t | t in tasks
    }

    constructor (graph: TaskGraph)
      requires graph.Shaped() && graph.DistinctNames()
      ensures Valid() && this.graph == graph && Contents() == {}
    {
      this.graph := graph;
      tasks := [];
    }

    method Add(task: nat)
      requires Valid() && task < |graph.nodes|
      modifies this
      ensures Valid() && Contents() == old(Contents()) + {task}
    {
      if task !in tasks {
        OrderIsLinear(graph);
        InsertIncreasing(Order(graph), task, tasks, TasksOf(graph));
        InsertMembers(Order(graph), task, tasks);
        tasks := Insert(Order(graph), task, tasks);
        assert Contents() == Members(tasks);
      }
    }

    method Erase(task: nat)
      requires Valid()
      modifies this
      ensures Valid() && Contents() == old(Contents()) - {task}
    {
      if i: nat :| i < |tasks| && tasks[i] == task {
        OrderIsLinear(graph);
        Without(Order(graph), tasks, i, TasksOf(graph));
        hide Order, Linear, Increasing, TasksOf;
        tasks := tasks[..i] + tasks[i + 1..];
      }
    }
  }

  /** The dispatch order is independent of when tasks became ready: queues of the same graph with the same
      contents list them in the same sequence. */
  lemma SameContentsSameOrder(g: TaskGraph, a: seq<nat>, b: seq<nat>)
    requires g.Shaped() && g.DistinctNames() && Members(a) <= TasksOf(g)
    requires Increasing(Order(g), a) && Increasing(Order(g), b) && Members(a) == Members(b)
    ensures a == b
  {
    OrderIsLinear(g);
    IncreasingIsUnique(Order(g), a, b, TasksOf(g));
  }
}
