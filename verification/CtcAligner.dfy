/**
 Forced alignment of a token sequence to frames of emission scores: the best path through a trellis,
 and the span of frames each token got (ctc_forced_aligner.cpp).

 Scores are exact reals; `None` is a cell no path reaches.
 */
module CtcAligner {
  import opened Basics

  type Score = Option<real>

  predicate Exceeds(a: Score, b: Score) {
    a.Some? && (b.None? || a.value > b.value)
  }

  function Plus(a: Score, x: real): Score {
    if a.Some? then Some(a.value + x) else None
  }

  /** `emissions[f][id]` is the score of token id `id` at frame `f`. */
  datatype Problem = Problem(tokens: seq<nat>, blank: nat, emissions: seq<seq<real>>) {
    function Frames(): nat { |emissions| }

    function States(): nat { 2 * |tokens| + 1 }

    /** A blank before and after every token: token `i` is state `2 * i + 1`. */
    function IdOf(s: nat): nat
      requires s < States()
    {
      if s % 2 == 1 then tokens[s / 2] else blank
    }

    predicate Covers(row: seq<real>) {
      blank < |row| && forall i :: 0 <= i < |tokens| ==> tokens[i] < |row|
    }

    predicate Valid() {
      tokens != [] && emissions != [] && forall f :: 0 <= f < |emissions| ==> Covers(emissions[f])
    }

    function At(f: nat, s: nat): real
      requires Valid() && f < Frames() && s < States()
    {
      assert Covers(emissions[f]);
      emissions[f][IdOf(s)]
    }

    /** Whether the path may skip the blank before state `s`. */
    predicate MaySkip(s: nat)
      requires s < States()
    {
      s > 1 && IdOf(s) != blank && IdOf(s) != IdOf(s - 2)
    }
  }

  // ---- Legal paths and their scores ----

  predicate Move(p: Problem, a: nat, b: nat)
    requires b < p.States()
  {
    b == a || b == a + 1 || (b == a + 2 && p.MaySkip(b))
  }

  predicate MovesAt(p: Problem, path: seq<nat>, f: nat) {
    0 < f < |path| ==> path[f] < p.States() && Move(p, path[f - 1], path[f])
  }

  /** A path starts in one of the first two states and moves legally at every frame. */
  ghost predicate Legal(p: Problem, path: seq<nat>) {
    && 0 < |path| <= p.Frames()
    && path[0] <= 1
    && (forall f :: 0 <= f < |path| ==> path[f] < p.States())
    && (forall f :: MovesAt(p, path, f))
  }

  function Total(p: Problem, path: seq<nat>): real
    requires p.Valid() && |path| <= p.Frames() && forall f :: 0 <= f < |path| ==> path[f] < p.States()
  {
    if path == [] then 0.0 else Total(p, path[..|path| - 1]) + p.At(|path| - 1, path[|path| - 1])
  }

  /** A legal path over all frames that ends in one of the last two states. */
  ghost predicate Complete(p: Problem, path: seq<nat>) {
    Legal(p, path) && |path| == p.Frames() && path[|path| - 1] >= p.States() - 2
  }

  // ---- The trellis ----

  /** Which predecessor the trellis takes: the current state first, then one back, then two back. */
  function Pick(stay: Score, advance: Score, skip: Score): (choice: nat)
    ensures choice <= 2
  {
    if Exceeds(skip, if Exceeds(advance, stay) then advance else stay) then 2
    else if Exceeds(advance, stay) then 1
    else 0
  }

  function Cell(p: Problem, f: nat, s: nat): Score
    requires p.Valid() && f < p.Frames() && s < p.States()
    decreases f, 1
  {
    if f == 0 then if s <= 1 then Some(p.At(0, s)) else None
    else Plus(Cell(p, f - 1, s - Choice(p, f, s)), p.At(f, s))
  }

  function Choice(p: Problem, f: nat, s: nat): (choice: nat)
    requires p.Valid() && f < p.Frames() && s < p.States()
    ensures choice <= 2 && choice <= s
    decreases f, 0
  {
    if f == 0 then 0
    else
      Pick(Cell(p, f - 1, s),
           if s > 0 then Cell(p, f - 1, s - 1) else None,
           if p.MaySkip(s) then Cell(p, f - 1, s - 2) else None)
  }

  /** No legal predecessor beats the chosen one, and the chosen one is legal. */
  lemma ChoiceIsBest(p: Problem, f: nat, s: nat, a: nat)
    requires p.Valid() && 0 < f < p.Frames() && s < p.States() && a < p.States() && Move(p, a, s)
    ensures !Exceeds(Cell(p, f - 1, a), Cell(p, f - 1, s - Choice(p, f, s)))
  {
  }

  lemma ChoiceIsLegal(p: Problem, f: nat, s: nat)
    requires p.Valid() && 0 < f < p.Frames() && s < p.States()
    ensures Move(p, s - Choice(p, f, s), s)
  {
  }

  /** The path the back-pointers lead to from state `s` at frame `f`. */
  function Back(p: Problem, f: nat, s: nat): (path: seq<nat>)
    requires p.Valid() && f < p.Frames() && s < p.States()
    ensures |path| == f + 1 && path[f] == s
    ensures forall i :: 0 <= i <= f ==> path[i] < p.States()
  {
    if f == 0 then [s] else Back(p, f - 1, s - Choice(p, f, s)) + [s]
  }

  lemma LegalSnoc(p: Problem, path: seq<nat>, s: nat)
    requires p.Valid() && Legal(p, path) && |path| < p.Frames() && s < p.States() && Move(p, path[|path| - 1], s)
    ensures Legal(p, path + [s]) && Total(p, path + [s]) == Total(p, path) + p.At(|path|, s)
  {
    var longer := path + [s];
    assert longer[..|path|] == path;
    forall f: nat ensures MovesAt(p, longer, f) { assert MovesAt(p, path, f); }
  }

  /** Following the back-pointers from a reachable cell gives a legal path with exactly the cell's score. */
  lemma {:induction false} BackAttains(p: Problem, f: nat, s: nat)
    requires p.Valid() && f < p.Frames() && s < p.States() && Cell(p, f, s).Some?
    ensures Legal(p, Back(p, f, s)) && Total(p, Back(p, f, s)) == Cell(p, f, s).value
  {
    hide Choice, Legal, Move, Total, Problem.At;
    if f > 0 {
      var earlier := s - Choice(p, f, s);
      BackAttains(p, f - 1, earlier);
      ChoiceIsLegal(p, f, s);
      LegalSnoc(p, Back(p, f - 1, earlier), s);
    } else {
      StartIsLegal(p, s);
    }
  }

  lemma StartIsLegal(p: Problem, s: nat)
    requires p.Valid() && s <= 1
    ensures Legal(p, [s]) && Total(p, [s]) == p.At(0, s)
  {
    assert [s][..0] == [];
  }

  lemma LegalPrefix(p: Problem, path: seq<nat>)
    requires p.Valid() && Legal(p, path) && |path| > 1
    ensures Legal(p, path[..|path| - 1]) && Move(p, path[|path| - 2], path[|path| - 1])
  {
    var earlier := path[..|path| - 1];
    forall i: nat ensures MovesAt(p, earlier, i) { assert MovesAt(p, path, i); }
    assert MovesAt(p, path, |path| - 1);
  }

  lemma CellGrows(p: Problem, f: nat, a: nat, s: nat, score: real)
    requires p.Valid() && 0 < f < p.Frames() && s < p.States() && a < p.States() && Move(p, a, s)
    requires Cell(p, f - 1, a).Some? && score <= Cell(p, f - 1, a).value
    ensures Cell(p, f, s).Some? && score + p.At(f, s) <= Cell(p, f, s).value
  {
    ChoiceIsBest(p, f, s, a);
    hide Choice, Move, Problem.At;
  }

  /** No legal path beats the cell it ends in. */
  lemma {:induction false} CellBounds(p: Problem, path: seq<nat>)
    requires p.Valid() && Legal(p, path)
    ensures var f := |path| - 1; Cell(p, f, path[f]).Some? && Total(p, path) <= Cell(p, f, path[f]).value
  {
    var f := |path| - 1;
    if f > 0 {
      LegalPrefix(p, path);
      CellBounds(p, path[..f]);
      assert Total(p, path) == Total(p, path[..f]) + p.At(f, path[f]);
      hide Cell, Legal, Choice, Move, Total, Problem.At;
      CellGrows(p, f, path[f - 1], path[f], Total(p, path[..f]));
    } else {
      StartIsLegal(p, path[0]);
      assert path == [path[0]];
    }
  }

  /** Each trellis cell is the best score of the legal paths that reach its state at its frame. */
  lemma TrellisIsBest(p: Problem, f: nat, s: nat)
    requires p.Valid() && f < p.Frames() && s < p.States()
    ensures Cell(p, f, s).Some? <==> exists path :: Legal(p, path) && |path| == f + 1 && path[f] == s
    ensures forall path :: Legal(p, path) && |path| == f + 1 && path[f] == s ==> Total(p, path) <= Cell(p, f, s).value
    ensures Cell(p, f, s).Some? ==>
              exists path :: Legal(p, path) && |path| == f + 1 && path[f] == s && Total(p, path) == Cell(p, f, s).value
  {
    hide Cell, Choice, Back, Total, MovesAt;
    if Cell(p, f, s).Some? { BackAttains(p, f, s); }
    forall path | Legal(p, path) && |path| == f + 1 && path[f] == s
      ensures Cell(p, f, s).Some? && Total(p, path) <= Cell(p, f, s).value
    {
      CellBounds(p, path);
    }
  }

  /** Where back-tracking starts: the last state, unless the last token's state scores higher. */
  function LastState(p: Problem): nat
    requires p.Valid()
  {
    var f, s := p.Frames() - 1, p.States() - 1;
    if Exceeds(Cell(p, f, s - 1), Cell(p, f, s)) then s - 1 else s
  }

  function BestPath(p: Problem): seq<nat>
    requires p.Valid()
  {
    Back(p, p.Frames() - 1, LastState(p))
  }

  /** The back-tracked path is a best one: whenever some complete path exists, it is complete and none scores higher. */
  lemma BestPathIsOptimal(p: Problem, other: seq<nat>)
    requires p.Valid() && Complete(p, other)
    ensures Complete(p, BestPath(p)) && Total(p, other) <= Total(p, BestPath(p))
  {
    hide Cell, Back, Total, MovesAt;
    CellBounds(p, other);
    BackAttains(p, p.Frames() - 1, LastState(p));
  }

  // ---- Which of several best paths ----

  /** Token `i` is scored as itself, and every state between tokens as the blank. */
  lemma ScoresMean(p: Problem, f: nat, i: nat)
    requires p.Valid() && f < p.Frames() && i <= |p.tokens|
    ensures p.Covers(p.emissions[f]) && p.At(f, 2 * i) == p.emissions[f][p.blank]
    ensures i < |p.tokens| ==> p.At(f, 2 * i + 1) == p.emissions[f][p.tokens[i]]
  {
  }

  /** A predecessor ahead of the chosen one has a lower score. */
  lemma ChoiceIsFirst(p: Problem, f: nat, s: nat, a: nat)
    requires p.Valid() && 0 < f < p.Frames() && s < p.States() && a < p.States() && Move(p, a, s) && a > s - Choice(p, f, s)
    ensures Exceeds(Cell(p, f - 1, s - Choice(p, f, s)), Cell(p, f - 1, a))
  {
  }

  /** From frame `k + 1` on the two paths are the same, and at `k` they differ. */
  ghost predicate PartAfter(path: seq<nat>, other: seq<nat>, k: nat) {
    k < |path| == |other| && path[k] != other[k] && forall g :: k < g < |path| ==> path[g] == other[g]
  }

  /** The last step of a path that attains its cell: the cell before is attained too, and not below the chosen one. */
  lemma LastStep(p: Problem, f: nat, s: nat, path: seq<nat>)
    requires p.Valid() && 0 < f < p.Frames() && s < p.States() && Cell(p, f, s).Some?
    requires Legal(p, path) && |path| == f + 1 && path[f] == s && Total(p, path) == Cell(p, f, s).value
    ensures var chosen, prior := s - Choice(p, f, s), path[f - 1];
            && Legal(p, path[..f]) && Move(p, prior, s) && prior < p.States()
            && Cell(p, f - 1, chosen).Some? && Cell(p, f - 1, prior).Some?
            && Total(p, path[..f]) == Cell(p, f - 1, chosen).value == Cell(p, f - 1, prior).value
  {
    LegalPrefix(p, path);
    CellFrom(p, f, s);
    hide Cell, Choice, Move, Legal, Problem.At;
    CellBounds(p, path[..f]);
    hide Total;
    assert Total(p, path) == Total(p, path[..f]) + p.At(f, s) by { LastScore(p, path); }
    ChoiceIsBest(p, f, s, path[f - 1]);
  }

  lemma LastScore(p: Problem, path: seq<nat>)
    requires p.Valid() && path != [] && |path| <= p.Frames() && forall g :: 0 <= g < |path| ==> path[g] < p.States()
    ensures Total(p, path) == Total(p, path[..|path| - 1]) + p.At(|path| - 1, path[|path| - 1])
  {
  }

  lemma {:induction false} BackIsLatest(p: Problem, f: nat, s: nat, path: seq<nat>, k: nat)
    requires p.Valid() && f < p.Frames() && s < p.States() && Cell(p, f, s).Some?
    requires Legal(p, path) && |path| == f + 1 && path[f] == s && Total(p, path) == Cell(p, f, s).value
    requires PartAfter(Back(p, f, s), path, k)
    ensures path[k] < Back(p, f, s)[k]
  {
    hide Cell, Choice, Move, Legal, Total, Back, Problem.At;
    assert f > 0;
    var chosen, prior := s - Choice(p, f, s), path[f - 1];
    LastStep(p, f, s, path);
    BackUnfolds(p, f, s);
    assert Back(p, f, s)[f - 1] == chosen;
    if prior == chosen {
      BackIsLatest(p, f - 1, chosen, path[..f], k);
    } else {
      assert k == f - 1;
      if prior > chosen { ChoiceIsFirst(p, f, s, prior); }
    }
  }

  /** Of several best paths the back-tracked one is furthest on at the last frame where it differs from another. */
  lemma BestPathIsLatest(p: Problem, other: seq<nat>, k: nat)
    requires p.Valid() && Complete(p, other) && Total(p, other) == Total(p, BestPath(p)) && PartAfter(BestPath(p), other, k)
    ensures other[k] < BestPath(p)[k]
  {
    hide Cell, Choice, MovesAt, Total, Back, Problem.At;
    var f := p.Frames() - 1;
    BestPathIsOptimal(p, other);
    CellBounds(p, other);
    BackAttains(p, f, LastState(p));
    if other[f] == LastState(p) { BackIsLatest(p, f, LastState(p), other, k); }
  }

  // ---- How many frames a token sequence needs ----

  /** The earliest frame at which token `i` can be reached: one frame a token, and one more for the blank
      that must part it from the token before when it repeats it or is itself the blank. */
  function Earliest(p: Problem, i: nat): nat
    requires i < |p.tokens|
  {
    if i == 0 then 0
    else Earliest(p, i - 1) + if p.tokens[i] == p.blank || p.tokens[i] == p.tokens[i - 1] then 2 else 1
  }

  function EarliestState(p: Problem, s: nat): nat
    requires s < p.States()
  {
    if s <= 1 then 0 else if s % 2 == 1 then Earliest(p, s / 2) else Earliest(p, s / 2 - 1) + 1
  }

  lemma CellReached(p: Problem, f: nat, s: nat)
    requires p.Valid() && 0 < f < p.Frames() && s < p.States()
    ensures Cell(p, f, s).Some? <==>
              || Cell(p, f - 1, s).Some?
              || (s > 0 && Cell(p, f - 1, s - 1).Some?)
              || (p.MaySkip(s) && Cell(p, f - 1, s - 2).Some?)
  {
  }

  lemma EarliestStep(p: Problem, f: nat, s: nat)
    requires s < p.States() && f > 0
    ensures f >= EarliestState(p, s) <==>
              || f - 1 >= EarliestState(p, s)
              || (s > 0 && f - 1 >= EarliestState(p, s - 1))
              || (p.MaySkip(s) && f - 1 >= EarliestState(p, s - 2))
  {
    if s > 1 && s % 2 == 1 {
      assert p.IdOf(s) == p.tokens[s / 2] && p.IdOf(s - 2) == p.tokens[s / 2 - 1];
    }
  }

  /** A cell is reachable exactly from the earliest frame of its state on. */
  lemma {:induction false} ReachableFrom(p: Problem, f: nat, s: nat)
    requires p.Valid() && f < p.Frames() && s < p.States()
    ensures Cell(p, f, s).Some? <==> f >= EarliestState(p, s)
  {
    if f > 0 {
      hide EarliestState, Cell, Problem.MaySkip, Earliest;
      CellReached(p, f, s);
      EarliestStep(p, f, s);
      ReachableFrom(p, f - 1, s);
      if s > 0 { ReachableFrom(p, f - 1, s - 1); }
      if s > 1 { ReachableFrom(p, f - 1, s - 2); }
    }
  }

  /** The frames the tokens need: one each, and one more for each repeated or blank token after the first. */
  function Needed(p: Problem): nat
    requires p.tokens != []
  {
    Earliest(p, |p.tokens| - 1) + 1
  }

  /** How many of the tokens after the first, up to token `i`, repeat the token before or are the blank. */
  function Repeats(p: Problem, i: nat): nat
    requires i < |p.tokens|
  {
    if i == 0 then 0 else Repeats(p, i - 1) + if p.tokens[i] == p.blank || p.tokens[i] == p.tokens[i - 1] then 1 else 0
  }

  lemma {:induction false} EarliestIsTokensPlusRepeats(p: Problem, i: nat)
    requires i < |p.tokens|
    ensures Earliest(p, i) == i + Repeats(p, i)
  {
    if i > 0 { EarliestIsTokensPlusRepeats(p, i - 1); }
  }

  /** Too few frames: no path, and back-tracking stays in the last state. */
  lemma {:induction false} StuckInPlace(p: Problem, f: nat, s: nat)
    requires p.Valid() && f < p.Frames() && s < p.States() && Cell(p, f, s).None?
    ensures Back(p, f, s) == seq(f + 1, _ => s)
  {
    if f > 0 {
      assert Choice(p, f, s) == 0;
      StuckInPlace(p, f - 1, s);
      assert seq(f + 1, _ => s) == seq(f, _ => s) + [s];
    }
  }

  lemma EnoughFrames(p: Problem)
    requires p.Valid()
    ensures p.Frames() >= Needed(p) ==> Complete(p, BestPath(p))
    ensures p.Frames() < Needed(p) ==> BestPath(p) == seq(p.Frames(), _ => p.States() - 1)
  {
    hide Legal, Cell, Back;
    var f, s := p.Frames() - 1, p.States() - 1;
    ReachableFrom(p, f, s);
    ReachableFrom(p, f, s - 1);
    if p.Frames() >= Needed(p) {
      BackAttains(p, f, LastState(p));
    } else {
      StuckInPlace(p, f, s);
    }
  }

  // ---- Spans ----

  /** Token `token` holds the frames from `first` up to `end`. */
  datatype Span = Span(token: nat, first: nat, end: nat)

  /** Span `k` is a whole run of frames of its token's state, after the span before it. */
  ghost predicate SpanAt(path: seq<nat>, spans: seq<Span>, k: nat) {
    k < |spans| ==>
      var span := spans[k];
      && span.first < span.end <= |path|
      && (forall f :: span.first <= f < span.end ==> path[f] == 2 * span.token + 1)
      && (span.end < |path| ==> path[span.end] != 2 * span.token + 1)
      && (k > 0 ==> spans[k - 1].end <= span.first)
  }

  /** A frame of a token's state is in some span. */
  ghost predicate FrameSpanned(path: seq<nat>, spans: seq<Span>, f: nat) {
    f < |path| && path[f] % 2 == 1 ==> exists k :: 0 <= k < |spans| && spans[k].first <= f < spans[k].end
  }

  /** `spans` are the runs of token frames of `path`, in order. */
  ghost predicate Describes(path: seq<nat>, spans: seq<Span>) {
    && (forall k :: SpanAt(path, spans, k))
    && (forall f :: FrameSpanned(path, spans, f))
  }

  lemma {:induction false} PathGrows(p: Problem, path: seq<nat>, a: nat, b: nat)
    requires Legal(p, path) && a <= b < |path|
    ensures path[a] <= path[b]
  {
    if a < b {
      PathGrows(p, path, a, b - 1);
      assert MovesAt(p, path, b);
    }
  }

  /** A legal path cannot jump over a token: on its way past state `2 * i + 1` it is in it. */
  lemma {:induction false} TokenIsVisited(p: Problem, path: seq<nat>, i: nat, upTo: nat) returns (f: nat)
    requires Legal(p, path) && i < |p.tokens| && upTo < |path| && path[upTo] >= 2 * i + 1
    ensures f <= upTo && path[f] == 2 * i + 1
  {
    if path[upTo] == 2 * i + 1 {
      f := upTo;
    } else {
      assert MovesAt(p, path, upTo);
      f := TokenIsVisited(p, path, i, upTo - 1);
    }
  }

  lemma TokensRise(p: Problem, path: seq<nat>, spans: seq<Span>, k: nat)
    requires Legal(p, path) && Describes(path, spans) && 0 < k < |spans|
    ensures spans[k - 1].token < spans[k].token
  {
    assert SpanAt(path, spans, k - 1) && SpanAt(path, spans, k);
    PathGrows(p, path, spans[k - 1].first, spans[k - 1].end);
    PathGrows(p, path, spans[k - 1].end, spans[k].first);
  }

  lemma {:induction false} TokensAtLeast(p: Problem, path: seq<nat>, spans: seq<Span>, j: nat, k: nat)
    requires Legal(p, path) && Describes(path, spans) && j <= k < |spans|
    ensures spans[k].token >= spans[j].token + (k - j)
  {
    if j < k {
      TokensAtLeast(p, path, spans, j, k - 1);
      TokensRise(p, path, spans, k);
    }
  }

  lemma SpanOfToken(p: Problem, path: seq<nat>, spans: seq<Span>, i: nat) returns (k: nat)
    requires Complete(p, path) && Describes(path, spans) && i < |p.tokens|
    ensures k < |spans| && spans[k].token == i && k <= i
  {
    var f := TokenIsVisited(p, path, i, |path| - 1);
    assert FrameSpanned(path, spans, f);
    k :| 0 <= k < |spans| && spans[k].first <= f < spans[k].end;
    assert SpanAt(path, spans, k);
    TokensAtLeast(p, path, spans, 0, k);
  }

  /** The spans of a complete path are the tokens, each once, in order. */
  lemma {:induction false} SpansAreTokens(p: Problem, path: seq<nat>, spans: seq<Span>, i: nat)
    requires Complete(p, path) && Describes(path, spans) && i < |p.tokens|
    ensures i < |spans| && spans[i].token == i
  {
    var k := SpanOfToken(p, path, spans, i);
    if k < i { SpansAreTokens(p, path, spans, k); }
  }

  lemma TokenInRange(p: Problem, path: seq<nat>, spans: seq<Span>, k: nat)
    requires Legal(p, path) && Describes(path, spans) && k < |spans|
    ensures spans[k].token < |p.tokens|
  {
    assert SpanAt(path, spans, k);
    var f := spans[k].first;
    assert path[f] == 2 * spans[k].token + 1 && path[f] < p.States();
  }

  lemma AsManySpansAsTokens(p: Problem, path: seq<nat>, spans: seq<Span>)
    requires Complete(p, path) && Describes(path, spans)
    ensures |spans| == |p.tokens|
    ensures forall i :: 0 <= i < |spans| ==> spans[i].token == i
  {
    forall i | 0 <= i < |p.tokens| ensures i < |spans| && spans[i].token == i {
      SpansAreTokens(p, path, spans, i);
    }
    if p.tokens != [] { SpansAreTokens(p, path, spans, |p.tokens| - 1); }
    if |p.tokens| < |spans| {
      TokensAtLeast(p, path, spans, 0, |p.tokens|);
      TokenInRange(p, path, spans, |p.tokens|);
    }
  }

  lemma NoSpans(p: Problem, path: seq<nat>, spans: seq<Span>)
    requires Describes(path, spans) && forall f :: 0 <= f < |path| ==> path[f] == p.States() - 1
    ensures spans == []
  {
    if spans != [] { StartsInToken(path, spans, 0); }
  }

  lemma StartsInToken(path: seq<nat>, spans: seq<Span>, k: nat)
    requires Describes(path, spans) && k < |spans|
    ensures spans[k].first < |path| && path[spans[k].first] == 2 * spans[k].token + 1
  {
    assert SpanAt(path, spans, k);
  }

  // ---- The algorithm ----

  ghost predicate CellFilled(p: Problem, trellis: array2<Score>, backpointers: array2<nat>, f: nat, s: nat)
    requires p.Valid()
    reads trellis, backpointers
  {
    f < p.Frames() && s < p.States() && f < trellis.Length0 == backpointers.Length0
    && s < trellis.Length1 == backpointers.Length1 ==>
      trellis[f, s] == Cell(p, f, s) && backpointers[f, s] == Choice(p, f, s)
  }

  lemma FirstRow(p: Problem)
    requires p.Valid()
    ensures forall s :: 0 <= s < p.States() ==> Cell(p, 0, s) == (if s <= 1 then Some(p.At(0, s)) else None) && Choice(p, 0, s) == 0
  {
  }

  lemma CellFrom(p: Problem, f: nat, s: nat)
    requires p.Valid() && 0 < f < p.Frames() && s < p.States()
    ensures Cell(p, f, s) == Plus(Cell(p, f - 1, s - Choice(p, f, s)), p.At(f, s))
  {
  }

  method FillTrellis(p: Problem) returns (trellis: array2<Score>, backpointers: array2<nat>)
    requires p.Valid()
    ensures trellis.Length0 == backpointers.Length0 == p.Frames()
    ensures trellis.Length1 == backpointers.Length1 == p.States()
    ensures forall f, s :: CellFilled(p, trellis, backpointers, f, s)
  {
    hide Cell, Choice, Problem.At, Problem.IdOf;
    FirstRow(p);
    trellis := new Score[p.Frames(), p.States()]((f, s) => None);
    backpointers := new nat[p.Frames(), p.States()]((f, s) => 0);
    trellis[0, 0] := Some(p.At(0, 0));
    trellis[0, 1] := Some(p.At(0, 1));
    for f := 1 to p.Frames()
      invariant forall g: nat, t: nat :: g < f ==> CellFilled(p, trellis, backpointers, g, t)
    {
      for s := 0 to p.States()
        invariant forall g: nat, t: nat :: g < f || (g == f && t < s) ==> CellFilled(p, trellis, backpointers, g, t)
      {
        var best, choice := FillCell(p, trellis, backpointers, f - 1, s);
        CellFrom(p, f, s);
        label before:
        trellis[f, s] := Plus(best, p.At(f, s));
        backpointers[f, s] := choice;
        assert CellFilled(p, trellis, backpointers, f, s);
        forall g: nat, t: nat | g < f || (g == f && t < s) ensures CellFilled(p, trellis, backpointers, g, t) {
          assert old@before(CellFilled(p, trellis, backpointers, g, t));
        }
      }
    }
  }

  method FillCell(p: Problem, trellis: array2<Score>, backpointers: array2<nat>, row: nat, s: nat)
    returns (best: Score, choice: nat)
    requires p.Valid() && row + 1 < p.Frames() && s < p.States()
    requires trellis.Length0 == backpointers.Length0 == p.Frames()
    requires trellis.Length1 == backpointers.Length1 == p.States()
    requires forall t :: CellFilled(p, trellis, backpointers, row, t)
    ensures choice == Choice(p, row + 1, s) && best == Cell(p, row, s - choice)
  {
    assert CellFilled(p, trellis, backpointers, row, s);
    best, choice := trellis[row, s], 0;
    if s > 0 {
      assert CellFilled(p, trellis, backpointers, row, s - 1);
      if Exceeds(trellis[row, s - 1], best) {
        best, choice := trellis[row, s - 1], 1;
      }
    }
    if p.MaySkip(s) {
      assert CellFilled(p, trellis, backpointers, row, s - 2);
      if Exceeds(trellis[row, s - 2], best) {
        best, choice := trellis[row, s - 2], 2;
      }
    }
  }

  method StartState(p: Problem, trellis: array2<Score>, backpointers: array2<nat>) returns (state: nat)
    requires p.Valid()
    requires trellis.Length0 == backpointers.Length0 == p.Frames()
    requires trellis.Length1 == backpointers.Length1 == p.States()
    requires forall f, s :: CellFilled(p, trellis, backpointers, f, s)
    ensures state == LastState(p)
  {
    hide Cell, Choice;
    var last := p.Frames() - 1;
    state := p.States() - 1;
    assert CellFilled(p, trellis, backpointers, last, state);
    assert CellFilled(p, trellis, backpointers, last, state - 1);
    if Exceeds(trellis[last, state - 1], trellis[last, state]) {
      state := state - 1;
    }
  }

  lemma BackUnfolds(p: Problem, f: nat, s: nat)
    requires p.Valid() && f < p.Frames() && s < p.States()
    ensures Back(p, f, s) == (if f == 0 then [] else Back(p, f - 1, s - Choice(p, f, s))) + [s]
    ensures f == 0 ==> Choice(p, f, s) == 0
  {
  }

  method Backtrack(p: Problem, trellis: array2<Score>, backpointers: array2<nat>) returns (path: array<nat>)
    requires p.Valid()
    requires trellis.Length0 == backpointers.Length0 == p.Frames()
    requires trellis.Length1 == backpointers.Length1 == p.States()
    requires forall f, s :: CellFilled(p, trellis, backpointers, f, s)
    ensures path[..] == BestPath(p)
  {
    hide Cell, Choice, LastState, Back;
    var state: nat := StartState(p, trellis, backpointers);
    path := new nat[p.Frames()];
    assert path[p.Frames()..] == [];
    ghost var best := BestPath(p);
    var f := p.Frames();
    while f > 0
      invariant 0 <= f <= p.Frames() && state < p.States()
      invariant f > 0 ==> best == Back(p, f - 1, state) + path[f..]
      invariant f == 0 ==> best == path[..]
    {
      f := f - 1;
      path[f] := state;
      assert path[f..] == [state] + path[f + 1..];
      assert CellFilled(p, trellis, backpointers, f, state);
      BackUnfolds(p, f, state);
      state := state - backpointers[f, state];
    }
    assert path[0..] == path[..];
  }

  /** The runs of token frames of a path. */
  method Spans(path: seq<nat>) returns (spans: seq<Span>)
    ensures Describes(path, spans)
  {
    spans := [];
    var frame := 0;
    while frame < |path|
      invariant 0 <= frame <= |path|
      invariant forall k :: SpanAt(path, spans, k)
      invariant spans != [] ==> spans[|spans| - 1].end <= frame
      invariant forall f: nat :: f < frame ==> FrameSpanned(path, spans, f)
    {
      if path[frame] % 2 == 0 {
        frame := frame + 1;
        continue;
      }
      var first, token := frame, path[frame] / 2;
      while frame < |path| && path[frame] == 2 * token + 1
        invariant first <= frame <= |path|
        invariant forall f :: first <= f < frame ==> path[f] == 2 * token + 1
        decreases |path| - frame
      {
        frame := frame + 1;
      }
      ghost var before := spans;
      spans := spans + [Span(token, first, frame)];
      forall k: nat ensures SpanAt(path, spans, k) { assert SpanAt(path, before, k); }
      forall f: nat | f < frame ensures FrameSpanned(path, spans, f) {
        if f < first {
          assert FrameSpanned(path, before, f);
          if path[f] % 2 == 1 {
            var k :| 0 <= k < |before| && before[k].first <= f < before[k].end;
            assert spans[k] == before[k];
          }
        } else {
          assert spans[|before|].first <= f < spans[|before|].end;
        }
      }
    }
  }

  datatype AlignError = MissingPhone(phone: string)

  /** The ids of the phones, or the first that is not in the vocabulary. */
  method LookUp(vocabulary: map<string, nat>, phones: seq<string>) returns (r: Result<seq<nat>, AlignError>)
    ensures r.Ok? <==> forall i :: 0 <= i < |phones| ==> phones[i] in vocabulary
    ensures r.Ok? ==> |r.value| == |phones| && forall i :: 0 <= i < |phones| ==> r.value[i] == vocabulary[phones[i]]
    ensures r.Err? ==> r.error.phone in phones && r.error.phone !in vocabulary
  {
    var ids: seq<nat> := [];
    for i := 0 to |phones|
      invariant |ids| == i
      invariant forall j :: 0 <= j < i ==> phones[j] in vocabulary && ids[j] == vocabulary[phones[j]]
    {
      if phones[i] !in vocabulary {
        return Err(MissingPhone(phones[i]));
      }
      ids := ids + [vocabulary[phones[i]]];
    }
    return Ok(ids);
  }

  /** Aligns phones to frames: every phone gets one span, in order, exactly when there are frames enough for a
      path; otherwise none does. `path` is the path the spans were read from. */
  method Align(vocabulary: map<string, nat>, blank: nat, phones: seq<string>, emissions: seq<seq<real>>)
    returns (r: Result<seq<Span>, AlignError>, ghost path: seq<nat>)
    requires forall f :: 0 <= f < |emissions| ==> blank < |emissions[f]|
    requires forall f, phone :: 0 <= f < |emissions| && phone in vocabulary ==> vocabulary[phone] < |emissions[f]|
    ensures phones == [] || emissions == [] ==> r == Ok([])
    ensures phones != [] && emissions != [] ==>
              (r.Ok? <==> forall i :: 0 <= i < |phones| ==> phones[i] in vocabulary)
    ensures phones != [] && emissions != [] && r.Ok? ==>
              var p := Problem(seq(|phones|, i requires 0 <= i < |phones| => vocabulary[phones[i]]), blank, emissions);
              && p.Valid()
              && Describes(path, r.value)
              && (p.Frames() >= Needed(p) ==>
                    && Complete(p, path)
                    && (forall other :: Complete(p, other) ==> Total(p, other) <= Total(p, path))
                    && |r.value| == |phones|
                    && forall i :: 0 <= i < |phones| ==> r.value[i].token == i)
              && (p.Frames() < Needed(p) ==> r.value == [] && forall other :: !Complete(p, other))
  {
    path := [];
    if phones == [] || emissions == [] {
      return Ok([]), path;
    }
    var ids := LookUp(vocabulary, phones);
    if ids.Err? {
      return Err(ids.error), path;
    }
    var p := Problem(ids.value, blank, emissions);
    assert ids.value == seq(|phones|, i requires 0 <= i < |phones| => vocabulary[phones[i]]);
    assert p.Valid() by {
      forall f | 0 <= f < |emissions| ensures p.Covers(emissions[f]) {}
    }
    var trellis, backpointers := FillTrellis(p);
    var states := Backtrack(p, trellis, backpointers);
    path := states[..];
    var spans := Spans(states[..]);
    AlignmentIsBest(p, spans);
    return Ok(spans), path;
  }

  /** What is promised of the spans of the best path. */
  lemma AlignmentIsBest(p: Problem, spans: seq<Span>)
    requires p.Valid() && Describes(BestPath(p), spans)
    ensures p.Frames() >= Needed(p) ==>
              && Complete(p, BestPath(p))
              && (forall other :: Complete(p, other) ==> Total(p, other) <= Total(p, BestPath(p)))
              && |spans| == |p.tokens| && forall i :: 0 <= i < |spans| ==> spans[i].token == i
    ensures p.Frames() < Needed(p) ==> spans == [] && forall other :: !Complete(p, other)
  {
    EnoughFrames(p);
    forall other | Complete(p, other)
      ensures Complete(p, BestPath(p)) && Total(p, other) <= Total(p, BestPath(p))
    {
      BestPathIsOptimal(p, other);
    }
    if p.Frames() >= Needed(p) {
      AsManySpansAsTokens(p, BestPath(p), spans);
    } else {
      NoSpans(p, BestPath(p), spans);
      NoPath(p);
    }
  }

  lemma LastStatesAreLate(p: Problem)
    requires p.Valid()
    ensures EarliestState(p, p.States() - 2) == Needed(p) - 1
    ensures EarliestState(p, p.States() - 1) == Needed(p)
  {
  }

  lemma NoPath(p: Problem)
    requires p.Valid() && p.Frames() < Needed(p)
    ensures forall path :: !Complete(p, path)
  {
    var f, s := p.Frames() - 1, p.States() - 1;
    ReachableFrom(p, f, s);
    ReachableFrom(p, f, s - 1);
    LastStatesAreLate(p);
    hide Cell, EarliestState, Earliest, Total, MovesAt, Needed;
    forall path ensures !Complete(p, path) {
      if Complete(p, path) { CellBounds(p, path); }
    }
  }
}
