/** Strict orders, and sorted sequences of elements no two of which tie. */
module Sorting {

  ghost predicate Linear<T(!new)>(before: (T, T) -> bool, among: set<T>) {
    && (forall x :: x in among ==> !before(x, x))
    && (forall x, y :: x in among && y in among && x != y ==> before(x, y) || before(y, x))
    && (forall x, y, z :: x in among && y in among && z in among && before(x, y) && before(y, z) ==> before(x, z))
  }

  ghost predicate Increasing<T>(before: (T, T) -> bool, s: seq<T>) {
    forall i, j :: 0 <= i < j < |s| ==> before(s[i], s[j])
  }

  ghost function Members<T>(s: seq<T>): set<T> {
    set x | x in s
  }

  function Insert<T>(before: (T, T) -> bool, x: T, s: seq<T>): seq<T> {
    if s == [] || before(x, s[0]) then [x] + s else [s[0]] + Insert(before, x, s[1..])
  }

  function SortBy<T>(before: (T, T) -> bool, s: seq<T>): seq<T> {
    if s == [] then [] else Insert(before, s[0], SortBy(before, s[1..]))
  }

  lemma {:induction false} InsertMembers<T>(before: (T, T) -> bool, x: T, s: seq<T>)
    ensures Members(Insert(before, x, s)) == Members(s) + {x}
    ensures multiset(Insert(before, x, s)) == multiset(s) + multiset{x}
  {
    if s == [] || before(x, s[0]) {
      MembersCons(x, s);
    } else {
      InsertMembers(before, x, s[1..]);
      UnderHead(s[0], x, s[1..], Insert(before, x, s[1..]));
      assert s == [s[0]] + s[1..];
    }
  }

  lemma UnderHead<T>(head: T, x: T, tail: seq<T>, rest: seq<T>)
    requires Members(rest) == Members(tail) + {x} && multiset(rest) == multiset(tail) + multiset{x}
    ensures Members([head] + rest) == Members([head] + tail) + {x}
    ensures multiset([head] + rest) == multiset([head] + tail) + multiset{x}
  {
    hide Members;
    MembersCons(head, tail);
    MembersCons(head, rest);
  }

  lemma MembersCons<T>(x: T, s: seq<T>)
    ensures Members([x] + s) == {x} + Members(s)
    ensures multiset([x] + s) == multiset{x} + multiset(s)
  {
    assert forall y :: y in [x] + s <==> y == x || y in s;
  }

  lemma {:induction false} InsertIncreasing<T(!new)>(before: (T, T) -> bool, x: T, s: seq<T>, among: set<T>)
    requires Linear(before, among) && x in among && Members(s) <= among
    requires Increasing(before, s) && x !in s
    ensures Increasing(before, Insert(before, x, s))
  {
    var r := Insert(before, x, s);
    if s != [] {
      assert forall i :: 0 <= i < |s| ==> s[i] in Members(s);
      if before(x, s[0]) {
        forall i, j | 0 <= i < j < |r| ensures before(r[i], r[j]) {
          if i == 0 && j > 1 { assert before(s[0], s[j - 1]); }
        }
      } else {
        assert before(s[0], x);
        assert Members(s[1..]) <= Members(s);
        InsertIncreasing(before, x, s[1..], among);
        InsertMembers(before, x, s[1..]);
        forall i, j | 0 <= i < j < |r| ensures before(r[i], r[j]) {
          if i == 0 {
            assert r[j] in Members(Insert(before, x, s[1..]));
            if r[j] != x {
              var k :| 0 <= k < |s[1..]| && s[1..][k] == r[j];
              assert before(s[0], s[k + 1]);
            }
          }
        }
      }
    }
  }

  lemma {:induction false} SortByMembers<T>(before: (T, T) -> bool, s: seq<T>)
    ensures Members(SortBy(before, s)) == Members(s)
    ensures multiset(SortBy(before, s)) == multiset(s)
  {
    if s != [] {
      SortByMembers(before, s[1..]);
      InsertMembers(before, s[0], SortBy(before, s[1..]));
      assert s == [s[0]] + s[1..];
      assert forall y :: y in s <==> y == s[0] || y in s[1..];
    }
  }

  /** A walk over the set `all` has been at `visited`, each element once, and `left` is left. */
  ghost predicate Walk<T>(all: set<T>, left: set<T>, visited: seq<T>) {
    left !! Members(visited) && left + Members(visited) == all && Distinct(visited)
  }

  lemma WalkStarts<T>(all: set<T>)
    ensures Walk(all, all, [])
  {
  }

  lemma WalkOn<T>(all: set<T>, left: set<T>, visited: seq<T>, x: T)
    requires x in left && Walk(all, left, visited)
    ensures Walk(all, left - {x}, visited + [x])
  {
    assert Members(visited + [x]) == Members(visited) + {x};
    assert x !in Members(visited);
  }

  lemma WalkEnds<T>(all: set<T>, visited: seq<T>)
    requires Walk(all, {}, visited)
    ensures Members(visited) == all && Distinct(visited)
  {
  }

  ghost predicate Distinct<T>(s: seq<T>) {
    forall i, j :: 0 <= i < j < |s| ==> s[i] != s[j]
  }

  lemma {:induction false} SortByIncreasing<T(!new)>(before: (T, T) -> bool, s: seq<T>, among: set<T>)
    requires Linear(before, among) && Members(s) <= among && Distinct(s)
    ensures Increasing(before, SortBy(before, s))
  {
    if s != [] {
      assert Members(s[1..]) <= Members(s);
      SortByIncreasing(before, s[1..], among);
      SortByMembers(before, s[1..]);
      assert s[0] in Members(s);
      var rest := SortBy(before, s[1..]);
      assert s[0] !in Members(s[1..]);
      assert forall x :: x in rest <==> x in Members(rest);
      InsertIncreasing(before, s[0], rest, among);
    }
  }

  lemma IncreasingDistinct<T(!new)>(before: (T, T) -> bool, s: seq<T>, among: set<T>)
    requires Linear(before, among) && Members(s) <= among && Increasing(before, s)
    ensures Distinct(s)
  {
    assert forall i :: 0 <= i < |s| ==> s[i] in Members(s);
  }

  lemma FirstIsLeast<T>(before: (T, T) -> bool, s: seq<T>)
    requires Increasing(before, s) && s != []
    ensures forall x :: x in s && x != s[0] ==> before(s[0], x)
  {
  }

  lemma FirstIsMember<T>(s: seq<T>)
    ensures s == [] <==> Members(s) == {}
    ensures s != [] ==> s[0] in Members(s)
  {
    if s == [] {
      assert forall x :: x !in s;
      assert Members(s) == {};
    } else {
      assert s[0] in Members(s);
    }
  }

  /** There is only one way to sort: the same elements in increasing order are the same sequence. */
  lemma {:induction false} IncreasingIsUnique<T(!new)>(before: (T, T) -> bool, a: seq<T>, b: seq<T>, among: set<T>)
    requires Linear(before, among) && Members(a) <= among
    requires Increasing(before, a) && Increasing(before, b) && Members(a) == Members(b)
    ensures a == b
  {
    FirstIsMember(a);
    FirstIsMember(b);
    if a != [] {
      assert Members(b) != {};
      FirstIsLeast(before, a);
      FirstIsLeast(before, b);
      assert b[0] in Members(a) && a[0] in Members(b);
      assert a[0] == b[0];
      TailMembers(before, a, among);
      TailMembers(before, b, among);
      IncreasingIsUnique(before, a[1..], b[1..], among);
      assert a == [a[0]] + a[1..] && b == [b[0]] + b[1..];
    }
  }

  lemma TailMembers<T(!new)>(before: (T, T) -> bool, s: seq<T>, among: set<T>)
    requires Linear(before, among) && Members(s) <= among && Increasing(before, s) && s != []
    ensures Members(s[1..]) == Members(s) - {s[0]} && Increasing(before, s[1..])
  {
    IncreasingDistinct(before, s, among);
    assert s == [s[0]] + s[1..];
    forall x ensures x in s[1..] <==> x in s && x != s[0] {
      if x in s[1..] {
        var k :| 0 <= k < |s[1..]| && s[1..][k] == x;
        assert s[k + 1] == x;
      }
    }
  }
}
