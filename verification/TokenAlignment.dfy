/** The longest common subsequence of two token lists, by table and back-trace (microphone_word_ownership.cpp). */
module TokenAlignment {

  /** `s` is what is left of `a` when some tokens are dropped. */
  predicate Subsequence(s: seq<string>, a: seq<string>) {
    if s == [] then true
    else if a == [] then false
    else
      || (s[|s| - 1] == a[|a| - 1] && Subsequence(s[..|s| - 1], a[..|a| - 1]))
      || Subsequence(s, a[..|a| - 1])
  }

  /** The table cell for the first `i` tokens of one list and the first `j` of the other. */
  function Length(a: seq<string>, b: seq<string>, i: nat, j: nat): (n: nat)
    requires i <= |a| && j <= |b|
  {
    if i == 0 || j == 0 then 0
    else if a[i - 1] == b[j - 1] then Length(a, b, i - 1, j - 1) + 1
    else if Length(a, b, i - 1, j) >= Length(a, b, i, j - 1) then Length(a, b, i - 1, j)
    else Length(a, b, i, j - 1)
  }

  lemma {:induction false} DropLast(s: seq<string>, a: seq<string>)
    requires s != [] && Subsequence(s, a)
    ensures Subsequence(s[..|s| - 1], a)
    ensures a != [] && Subsequence(s[..|s| - 1], a[..|a| - 1])
  {
    var init := a[..|a| - 1];
    if s[|s| - 1] == a[|a| - 1] && Subsequence(s[..|s| - 1], init) {
    } else {
      DropLast(s, init);
    }
  }

  /** No common subsequence is longer than the table cell says. */
  lemma {:induction false} LengthBounds(a: seq<string>, b: seq<string>, i: nat, j: nat, s: seq<string>)
    requires i <= |a| && j <= |b| && Subsequence(s, a[..i]) && Subsequence(s, b[..j])
    ensures |s| <= Length(a, b, i, j)
    decreases i + j
  {
    if s != [] {
      assert i > 0 && j > 0;
      assert a[..i][..i - 1] == a[..i - 1] && b[..j][..j - 1] == b[..j - 1];
      if a[i - 1] == b[j - 1] {
        DropLast(s, a[..i]);
        DropLast(s, b[..j]);
        LengthBounds(a, b, i - 1, j - 1, s[..|s| - 1]);
      } else if s[|s| - 1] != a[i - 1] {
        LengthBounds(a, b, i - 1, j, s);
      } else {
        LengthBounds(a, b, i, j - 1, s);
      }
    }
  }

  /** What the back-trace from cell (i, j) finds. */
  function Trace(a: seq<string>, b: seq<string>, i: nat, j: nat): seq<string>
    requires i <= |a| && j <= |b|
    decreases i + j
  {
    if i == 0 || j == 0 then []
    else if a[i - 1] == b[j - 1] then Trace(a, b, i - 1, j - 1) + [a[i - 1]]
    else if Length(a, b, i - 1, j) >= Length(a, b, i, j - 1) then Trace(a, b, i - 1, j)
    else Trace(a, b, i, j - 1)
  }

  lemma {:induction false} TraceIsCommon(a: seq<string>, b: seq<string>, i: nat, j: nat)
    requires i <= |a| && j <= |b|
    ensures |Trace(a, b, i, j)| == Length(a, b, i, j)
    ensures Subsequence(Trace(a, b, i, j), a[..i]) && Subsequence(Trace(a, b, i, j), b[..j])
    decreases i + j
  {
    if i > 0 && j > 0 {
      assert a[..i][..i - 1] == a[..i - 1] && b[..j][..j - 1] == b[..j - 1];
      if a[i - 1] == b[j - 1] {
        TraceIsCommon(a, b, i - 1, j - 1);
        assert (Trace(a, b, i - 1, j - 1) + [a[i - 1]])[..|Trace(a, b, i - 1, j - 1)|] == Trace(a, b, i - 1, j - 1);
      } else if Length(a, b, i - 1, j) >= Length(a, b, i, j - 1) {
        TraceIsCommon(a, b, i - 1, j);
      } else {
        TraceIsCommon(a, b, i, j - 1);
      }
    }
  }

  /** Of several longest common subsequences: equal last tokens are always taken; else the last token of the left list goes
      first, wherever that costs nothing. */
  lemma TracePrefers(a: seq<string>, b: seq<string>, i: nat, j: nat)
    requires 0 < i <= |a| && 0 < j <= |b|
    ensures a[i - 1] == b[j - 1] ==> Trace(a, b, i, j) == Trace(a, b, i - 1, j - 1) + [a[i - 1]]
    ensures a[i - 1] != b[j - 1] ==>
              Trace(a, b, i, j) == if |Trace(a, b, i - 1, j)| == |Trace(a, b, i, j)| then Trace(a, b, i - 1, j) else Trace(a, b, i, j - 1)
  {
    TraceIsCommon(a, b, i, j);
    TraceIsCommon(a, b, i - 1, j);
    TraceIsCommon(a, b, i, j - 1);
  }

  function Reversed(s: seq<string>): seq<string> {
    if s == [] then [] else [s[|s| - 1]] + Reversed(s[..|s| - 1])
  }

  ghost predicate CellFilled(left: seq<string>, right: seq<string>, lengths: array2<nat>, i: nat, j: nat)
    reads lengths
  {
    i <= |left| && j <= |right| && i < lengths.Length0 && j < lengths.Length1 ==> lengths[i, j] == Length(left, right, i, j)
  }

  method FillTable(left: seq<string>, right: seq<string>) returns (lengths: array2<nat>)
    ensures lengths.Length0 == |left| + 1 && lengths.Length1 == |right| + 1
    ensures forall i, j :: CellFilled(left, right, lengths, i, j)
  {
    lengths := new nat[|left| + 1, |right| + 1]((i, j) => 0);
    for i := 0 to |left|
      invariant forall g: nat, k: nat :: g <= i || k == 0 ==> CellFilled(left, right, lengths, g, k)
    {
      for j := 0 to |right|
        invariant forall g: nat, k: nat :: g <= i || k == 0 || (g == i + 1 && k <= j) ==> CellFilled(left, right, lengths, g, k)
      {
        assert CellFilled(left, right, lengths, i, j) && CellFilled(left, right, lengths, i, j + 1)
            && CellFilled(left, right, lengths, i + 1, j);
        label before:
        lengths[i + 1, j + 1] :=
          if left[i] == right[j] then lengths[i, j] + 1
          else if lengths[i, j + 1] >= lengths[i + 1, j] then lengths[i, j + 1]
          else lengths[i + 1, j];
        forall g: nat, k: nat | g <= i || k == 0 || (g == i + 1 && k <= j + 1) ensures CellFilled(left, right, lengths, g, k) {
          assert g <= i || k == 0 || k <= j ==> old@before(CellFilled(left, right, lengths, g, k));
        }
      }
    }
  }

  /** A common subsequence of both lists that no common subsequence exceeds. */
  method LcsTokens(left: seq<string>, right: seq<string>) returns (aligned: seq<string>)
    ensures aligned == Trace(left, right, |left|, |right|)
    ensures Subsequence(aligned, left) && Subsequence(aligned, right)
    ensures forall s :: Subsequence(s, left) && Subsequence(s, right) ==> |s| <= |aligned|
  {
    hide Length, Subsequence;
    var lengths := FillTable(left, right);
    var found: seq<string> := [];
    var i, j := |left|, |right|;
    while i > 0 && j > 0
      invariant 0 <= i <= |left| && 0 <= j <= |right|
      invariant Trace(left, right, |left|, |right|) == Trace(left, right, i, j) + Reversed(found)
      decreases i + j
    {
      assert CellFilled(left, right, lengths, i - 1, j) && CellFilled(left, right, lengths, i, j - 1);
      if left[i - 1] == right[j - 1] {
        assert (found + [left[i - 1]])[..|found|] == found;
        found := found + [left[i - 1]];
        i, j := i - 1, j - 1;
      } else if lengths[i - 1, j] >= lengths[i, j - 1] {
        i := i - 1;
      } else {
        j := j - 1;
      }
    }
    aligned := Reverse(found);
    assert Trace(left, right, i, j) == [] && [] + aligned == aligned;
    LcsIsLongest(left, right);
  }

  method Reverse(s: seq<string>) returns (r: seq<string>)
    ensures r == Reversed(s)
  {
    r := [];
    for i := 0 to |s|
      invariant r == Reversed(s[..i])
    {
      assert s[..i + 1][..i] == s[..i];
      r := [s[i]] + r;
    }
    assert s[..|s|] == s;
  }

  lemma LcsIsLongest(left: seq<string>, right: seq<string>)
    ensures var trace := Trace(left, right, |left|, |right|);
            && Subsequence(trace, left) && Subsequence(trace, right)
            && forall s :: Subsequence(s, left) && Subsequence(s, right) ==> |s| <= |trace|
  {
    assert left[..|left|] == left && right[..|right|] == right;
    TraceIsCommon(left, right, |left|, |right|);
    forall s | Subsequence(s, left) && Subsequence(s, right) ensures |s| <= Length(left, right, |left|, |right|) {
      LengthBounds(left, right, |left|, |right|, s);
    }
  }
}
