/**
 Joining the words of overlapping chunks of speech into one transcript (asr_chunk_reconciliation.cpp).
 Times are integers of unlimited size.
 */
module AsrReconciliation {
  import opened Basics

  datatype Word = Word(text: string, startUs: int, endUs: int, chunkOrdinal: int)

  datatype ChunkPlan = ChunkPlan(sourceStartUs: int, overlapBeforeUs: int)

  // ---- Tokens ----

  predicate IsAlnum(c: char) {
    '0' <= c <= '9' || 'a' <= c <= 'z' || 'A' <= c <= 'Z'
  }

  function ToLower(c: char): char {
    if 'A' <= c <= 'Z' then c - 'A' + 'a' else c
  }

  function Normalized(text: string): string {
    if text == "" then ""
    else if IsAlnum(text[0]) then [ToLower(text[0])] + Normalized(text[1..])
    else Normalized(text[1..])
  }

  function Tokens(words: seq<Word>): seq<string> {
    seq(|words|, i requires 0 <= i < |words| => Normalized(words[i].text))
  }

  // ---- The longest common run ----

  datatype Match = Match(priorStart: nat, currentStart: nat, length: nat) {
    function PriorEnd(): nat { priorStart + length }
    function CurrentEnd(): nat { currentStart + length }
  }

  predicate SameToken(prior: seq<string>, current: seq<string>, i: nat, j: nat, k: nat) {
    i + k < |prior| && j + k < |current| && prior[i + k] == current[j + k] != ""
  }

  /** `length` equal, non-empty tokens from `i` in one list and from `j` in the other. */
  predicate Common(prior: seq<string>, current: seq<string>, i: nat, j: nat, length: nat) {
    && i + length <= |prior| && j + length <= |current|
    && forall k: nat :: k < length ==> SameToken(prior, current, i, j, k)
  }

  /** Longest of all runs; of those the one that ends last in the current chunk, then the one that comes first
      in the prior chunk. Without a run, the empty match at the start. */
  ghost predicate IsBest(prior: seq<string>, current: seq<string>, m: Match) {
    && Common(prior, current, m.priorStart, m.currentStart, m.length)
    && (m.length == 0 ==> m == Match(0, 0, 0))
    && forall i: nat, j: nat, n: nat :: n > 0 && Common(prior, current, i, j, n) ==>
         && n <= m.length
         && (n == m.length ==> j <= m.currentStart && (j == m.currentStart ==> m.priorStart <= i))
  }

  lemma BestIsUnique(prior: seq<string>, current: seq<string>, a: Match, b: Match)
    requires IsBest(prior, current, a) && IsBest(prior, current, b)
    ensures a == b
  {
  }

  /** The length of the longest run that ends just before `i` and `j`. */
  function RunTo(prior: seq<string>, current: seq<string>, i: nat, j: nat): (n: nat)
    requires i <= |prior| && j <= |current|
    ensures n <= i && n <= j
  {
    if i == 0 || j == 0 || prior[i - 1] == "" || prior[i - 1] != current[j - 1] then 0
    else RunTo(prior, current, i - 1, j - 1) + 1
  }

  lemma {:induction false} RunToIsCommon(prior: seq<string>, current: seq<string>, i: nat, j: nat)
    requires i <= |prior| && j <= |current|
    ensures var n := RunTo(prior, current, i, j); Common(prior, current, i - n, j - n, n)
  {
    var n := RunTo(prior, current, i, j);
    if n > 0 {
      RunToIsCommon(prior, current, i - 1, j - 1);
      assert SameToken(prior, current, i - n, j - n, n - 1);
    }
  }

  lemma {:induction false} RunToIsLongest(prior: seq<string>, current: seq<string>, i: nat, j: nat, n: nat)
    requires Common(prior, current, i, j, n)
    ensures n <= RunTo(prior, current, i + n, j + n)
  {
    if n > 0 {
      RunToIsLongest(prior, current, i, j, n - 1);
      assert SameToken(prior, current, i, j, n - 1);
    }
  }

  /** `m` is at least as good as the longest run that ends just before `a` and `b`. */
  predicate NotBeatenAt(prior: seq<string>, current: seq<string>, m: Match, a: nat, b: nat) {
    a <= |prior| && b <= |current| ==>
      var n := RunTo(prior, current, a, b);
      n > 0 ==> && n <= m.length
                && (n == m.length ==> b <= m.CurrentEnd() && (b == m.CurrentEnd() ==> m.PriorEnd() <= a))
  }

  lemma BestSoFarIsBest(prior: seq<string>, current: seq<string>, m: Match)
    requires Common(prior, current, m.priorStart, m.currentStart, m.length) && (m.length == 0 ==> m == Match(0, 0, 0))
    requires forall a, b :: NotBeatenAt(prior, current, m, a, b)
    ensures IsBest(prior, current, m)
  {
    forall i: nat, j: nat, n: nat | n > 0 && Common(prior, current, i, j, n)
      ensures n <= m.length && (n == m.length ==> j <= m.currentStart && (j == m.currentStart ==> m.priorStart <= i))
    {
      RunToIsLongest(prior, current, i, j, n);
      assert NotBeatenAt(prior, current, m, i + n, j + n);
    }
  }

  /** `m` is a run, or empty, and beats every run that ends in the rows before `i` or before `j` in row `i`. */
  ghost predicate BestUpTo(prior: seq<string>, current: seq<string>, m: Match, i: nat, j: nat) {
    && Common(prior, current, m.priorStart, m.currentStart, m.length) && (m.length == 0 ==> m == Match(0, 0, 0))
    && m.PriorEnd() <= i
    && forall a: nat, b: nat :: a < i || (a == i && b < j) ==> NotBeatenAt(prior, current, m, a, b)
  }

  /** The better of the best so far and the run that ends just before `i` and `j`. */
  function Better(best: Match, i: nat, j: nat, n: nat): Match
    requires n <= i && n <= j
  {
    if n > best.length || (n == best.length > 0 && j > best.CurrentEnd()) then Match(i - n, j - n, n) else best
  }

  lemma BetterIsBest(prior: seq<string>, current: seq<string>, best: Match, i: nat, j: nat)
    requires i <= |prior| && j <= |current| && BestUpTo(prior, current, best, i, j)
    ensures BestUpTo(prior, current, Better(best, i, j, RunTo(prior, current, i, j)), i, j + 1)
  {
    hide Common;
    var n := RunTo(prior, current, i, j);
    RunToIsCommon(prior, current, i, j);
    var better := Better(best, i, j, n);
    forall a: nat, b: nat | a < i || (a == i && b < j + 1) ensures NotBeatenAt(prior, current, better, a, b) {
      if a < i || b < j { assert NotBeatenAt(prior, current, best, a, b); }
    }
  }

  lemma NextRow(prior: seq<string>, current: seq<string>, best: Match, i: nat, j: nat)
    requires 0 < i <= |prior| && BestUpTo(prior, current, best, i, j) && (j > |current| || prior[i - 1] == "")
    ensures BestUpTo(prior, current, best, i + 1, 0)
  {
    forall a: nat, b: nat | a < i + 1 ensures NotBeatenAt(prior, current, best, a, b) {
      if a < i || b < j { assert NotBeatenAt(prior, current, best, a, b); }
    }
  }

  /** A row of the table: the run lengths for prior position `i` before column `j`, zeros after. */
  ghost predicate RowFilled(prior: seq<string>, current: seq<string>, row: seq<nat>, i: nat, j: nat) {
    && i <= |prior| && |row| == |current| + 1 && j <= |row|
    && (forall b :: 0 <= b < j ==> row[b] == RunTo(prior, current, i, b))
    && (forall b :: j <= b < |row| ==> row[b] == 0)
  }

  /** Fills the row of prior position `i` from the row before it. */
  method FillRow(prior: seq<string>, current: seq<string>, previous: array<nat>, i: nat, first: Match) returns (row: array<nat>, best: Match)
    requires 0 < i <= |prior| && RowFilled(prior, current, previous[..], i - 1, |current| + 1)
    requires BestUpTo(prior, current, first, i, 0)
    ensures fresh(row) && RowFilled(prior, current, row[..], i, |current| + 1)
    ensures BestUpTo(prior, current, best, i + 1, 0)
  {
    hide BestUpTo;
    row := new nat[|current| + 1](_ => 0);
    best := first;
    BetterIsBest(prior, current, best, i, 0);
    if prior[i - 1] == "" {
      NextRow(prior, current, best, i, 0);
      return;
    }
    for j := 1 to |current| + 1
      invariant RowFilled(prior, current, row[..], i, j)
      invariant BestUpTo(prior, current, best, i, j)
    {
      BetterIsBest(prior, current, best, i, j);
      if prior[i - 1] == current[j - 1] {
        assert previous[..][j - 1] == RunTo(prior, current, i - 1, j - 1);
        row[j] := previous[j - 1] + 1;
        var candidate := Match(i - row[j], j - row[j], row[j]);
        if candidate.length > best.length
           || (candidate.length == best.length && candidate.CurrentEnd() > best.CurrentEnd()) {
          best := candidate;
        }
      }
    }
    NextRow(prior, current, best, i, |current| + 1);
  }

  lemma BeforeRows(prior: seq<string>, current: seq<string>, row: seq<nat>)
    requires |row| == |current| + 1 && forall b :: 0 <= b < |row| ==> row[b] == 0
    ensures RowFilled(prior, current, row, 0, |current| + 1) && BestUpTo(prior, current, Match(0, 0, 0), 1, 0)
  {
  }

  lemma AllRowsSeen(prior: seq<string>, current: seq<string>, best: Match)
    requires BestUpTo(prior, current, best, |prior| + 1, 0)
    ensures IsBest(prior, current, best)
  {
    forall a: nat, b: nat ensures NotBeatenAt(prior, current, best, a, b) {}
    BestSoFarIsBest(prior, current, best);
  }

  /** The dynamic program keeps only the row before and the row it fills. */
  method LongestContiguousMatch(prior: seq<string>, current: seq<string>) returns (best: Match)
    ensures IsBest(prior, current, best)
  {
    hide BestUpTo, RowFilled, IsBest;
    var previous := new nat[|current| + 1](_ => 0);
    best := Match(0, 0, 0);
    BeforeRows(prior, current, previous[..]);
    for i := 1 to |prior| + 1
      invariant RowFilled(prior, current, previous[..], i - 1, |current| + 1)
      invariant BestUpTo(prior, current, best, i, 0)
    {
      previous, best := FillRow(prior, current, previous, i, best);
    }
    AllRowsSeen(prior, current, best);
  }

  // ---- Joining a chunk to the transcript ----

  const MINIMUM_ALIGNED_OVERLAP_TOKENS := 4

  /** The chunk's words of positive length, on the source's clock. */
  function Timed(words: seq<Word>, chunk: ChunkPlan): seq<Word> {
    if words == [] then []
    else
      var n := |words| - 1;
      var earlier := Timed(words[..n], chunk);
      if words[n].endUs <= words[n].startUs then earlier
      else earlier + [words[n].(startUs := words[n].startUs + chunk.sourceStartUs, endUs := words[n].endUs + chunk.sourceStartUs)]
  }

  /** The words that start before `end`. */
  function StartingBefore(words: seq<Word>, end: int): (r: seq<Word>)
    ensures |r| <= |words|
  {
    if words == [] then []
    else
      var n := |words| - 1;
      StartingBefore(words[..n], end) + if words[n].startUs < end then [words[n]] else []
  }

  /** Where the words of the chunk `ordinal` at the end of the transcript begin. */
  function TailBegin(result: seq<Word>, ordinal: int): (begin: nat)
    ensures begin <= |result|
  {
    if result != [] && result[|result| - 1].chunkOrdinal == ordinal then TailBegin(result[..|result| - 1], ordinal) else |result|
  }

  function SkipUntil(current: seq<Word>, end: int, from: nat): (i: nat)
    requires from <= |current|
    ensures from <= i <= |current|
    ensures forall k :: from <= k < i ==> current[k].startUs < end
    ensures i < |current| ==> current[i].startUs >= end
    decreases |current| - from
  {
    if from < |current| && current[from].startUs < end then SkipUntil(current, end, from + 1) else from
  }

  /** Where the new chunk takes over, and how much of the transcript so far can stay. */
  datatype Seam = Seam(appendFrom: nat, keptPriorEnd: nat)

  predicate Fits(result: seq<Word>, current: seq<Word>, priorBegin: nat, m: Match) {
    result != [] && m.CurrentEnd() <= |current| && priorBegin + m.PriorEnd() <= |result|
  }

  /** Whether the two copies of the matched words overlap in time, so that they are the same audio. */
  predicate SameAudio(result: seq<Word>, current: seq<Word>, priorBegin: nat, m: Match)
    requires Fits(result, current, priorBegin, m) && m.length > 0
  {
    && result[priorBegin + m.PriorEnd() - 1].endUs > current[m.currentStart].startUs
    && current[m.CurrentEnd() - 1].endUs > result[priorBegin + m.priorStart].startUs
  }

  function SeamOf(result: seq<Word>, current: seq<Word>, priorBegin: nat, m: Match): (seam: Seam)
    requires Fits(result, current, priorBegin, m)
    ensures seam.appendFrom <= |current| && seam.keptPriorEnd <= |result|
  {
    if m.length >= MINIMUM_ALIGNED_OVERLAP_TOKENS then
      Seam(m.CurrentEnd(), if SameAudio(result, current, priorBegin, m) then priorBegin + m.PriorEnd() else |result|)
    else
      Seam(SkipUntil(current, result[|result| - 1].endUs, 0), |result|)
  }

  function DropFrom(result: seq<Word>, seamStart: int): (r: seq<Word>)
    ensures r <= result
    ensures r != [] ==> r[|r| - 1].startUs < seamStart
  {
    if result != [] && result[|result| - 1].startUs >= seamStart then DropFrom(result[..|result| - 1], seamStart) else result
  }

  function TrimLast(result: seq<Word>, seamStart: int): (r: seq<Word>)
    ensures |r| == |result|
  {
    var n := |result| - 1;
    if result != [] && result[n].endUs > seamStart then result[n := result[n].(endUs := seamStart)] else result
  }

  function Join(result: seq<Word>, current: seq<Word>, priorBegin: nat, m: Match): seq<Word>
    requires Fits(result, current, priorBegin, m)
  {
    var seam := SeamOf(result, current, priorBegin, m);
    if seam.appendFrom == |current| then result
    else
      var seamStart := current[seam.appendFrom].startUs;
      TrimLast(DropFrom(result[..seam.keptPriorEnd], seamStart), seamStart) + current[seam.appendFrom..]
  }

  /** Joined at the best match of the transcript from `begin` and the chunk's words that start before `end`. */
  ghost predicate JoinedBy(result: seq<Word>, current: seq<Word>, begin: nat, end: int, m: Match, next: seq<Word>)
    requires result != [] && begin <= |result|
  {
    IsBest(Tokens(result[begin..]), Tokens(StartingBefore(current, end)), m) && next == Join(result, current, begin, m)
  }

  /** What joining chunk `index` makes of the transcript. */
  ghost predicate Joined(result: seq<Word>, words: seq<Word>, chunk: ChunkPlan, index: nat, next: seq<Word>) {
    var current := Timed(words, chunk);
    if current == [] then next == result
    else if result == [] then next == current
    else if index > 0 && result[|result| - 1].chunkOrdinal == index - 1 then
      var begin := TailBegin(result, index - 1);
      var end := chunk.sourceStartUs + chunk.overlapBeforeUs;
      exists m :: JoinedBy(result, current, begin, end, m, next)
    else next == Join(result, current, |result|, Match(0, 0, 0))
  }

  lemma BestFits(result: seq<Word>, current: seq<Word>, begin: nat, end: int, m: Match)
    requires result != [] && begin <= |result|
    requires IsBest(Tokens(result[begin..]), Tokens(StartingBefore(current, end)), m)
    ensures Fits(result, current, begin, m)
  {
  }

  // ---- What joining keeps ----

  /** Words of positive length, none starting before the one before it ended. */
  ghost predicate InOrder(words: seq<Word>) {
    && (forall i :: 0 <= i < |words| ==> words[i].startUs < words[i].endUs)
    && (forall i, j :: 0 <= i < j < |words| ==> words[i].endUs <= words[j].startUs)
  }

  ghost predicate OrdinalsRise(words: seq<Word>) {
    forall i, j :: 0 <= i < j < |words| ==> words[i].chunkOrdinal <= words[j].chunkOrdinal
  }

  /** Word `k` of the transcript is word `from[k]` of all words, with its end at most shortened. */
  ghost predicate TracedAt(words: seq<Word>, all: seq<Word>, from: seq<nat>, k: nat) {
    k < |words| && k < |from| ==>
      && from[k] < |all| && words[k].endUs <= all[from[k]].endUs
      && words[k] == all[from[k]].(endUs := words[k].endUs)
  }

  ghost predicate Traced(words: seq<Word>, all: seq<Word>, from: seq<nat>) {
    && |from| == |words|
    && (forall k :: TracedAt(words, all, from, k))
    && (forall i, j :: 0 <= i < j < |from| ==> from[i] < from[j])
  }

  /** What is kept of the transcript, cut at the seam. */
  function Cut(result: seq<Word>, current: seq<Word>, priorBegin: nat, m: Match): seq<Word>
    requires Fits(result, current, priorBegin, m) && SeamOf(result, current, priorBegin, m).appendFrom < |current|
  {
    var seam := SeamOf(result, current, priorBegin, m);
    TrimLast(DropFrom(result[..seam.keptPriorEnd], current[seam.appendFrom].startUs), current[seam.appendFrom].startUs)
  }

  lemma TrimmedIsShortened(result: seq<Word>, kept: seq<Word>, start: int)
    requires InOrder(result) && |kept| <= |result| && forall k :: 0 <= k < |kept| ==> kept[k] == result[k]
    requires kept != [] ==> kept[|kept| - 1].startUs < start
    ensures var cut := TrimLast(kept, start);
            && (forall k :: 0 <= k < |cut| ==> cut[k] == result[k].(endUs := cut[k].endUs) && cut[k].startUs < cut[k].endUs <= result[k].endUs)
            && (forall k :: 0 <= k < |cut| ==> cut[k].endUs <= start)
  {
    if kept != [] {
      var last := |kept| - 1;
      assert forall k :: 0 <= k < last ==> result[k].endUs <= result[last].startUs;
    }
  }

  lemma CutIsShortened(result: seq<Word>, current: seq<Word>, priorBegin: nat, m: Match)
    requires Fits(result, current, priorBegin, m) && SeamOf(result, current, priorBegin, m).appendFrom < |current| && InOrder(result)
    ensures var cut, start := Cut(result, current, priorBegin, m), current[SeamOf(result, current, priorBegin, m).appendFrom].startUs;
            && |cut| <= |result|
            && (forall k :: 0 <= k < |cut| ==> cut[k] == result[k].(endUs := cut[k].endUs) && cut[k].startUs < cut[k].endUs <= result[k].endUs)
            && (forall k :: 0 <= k < |cut| ==> cut[k].endUs <= start)
  {
    var seam := SeamOf(result, current, priorBegin, m);
    var start := current[seam.appendFrom].startUs;
    var kept := DropFrom(result[..seam.keptPriorEnd], start);
    hide SeamOf, DropFrom, InOrder;
    assert forall k :: 0 <= k < |kept| ==> kept[k] == result[k];
    TrimmedIsShortened(result, kept, start);
  }

  lemma JoinKeepsOrder(result: seq<Word>, current: seq<Word>, priorBegin: nat, m: Match)
    requires Fits(result, current, priorBegin, m) && InOrder(result) && InOrder(current)
    ensures InOrder(Join(result, current, priorBegin, m))
  {
    var seam := SeamOf(result, current, priorBegin, m);
    if seam.appendFrom < |current| {
      CutIsShortened(result, current, priorBegin, m);
      var cut, tail := Cut(result, current, priorBegin, m), current[seam.appendFrom..];
      hide Cut, SeamOf;
      forall i, j | 0 <= i < j < |cut| ensures cut[i].endUs <= cut[j].startUs {
        assert result[i].endUs <= result[j].startUs;
      }
      OrderedAppend(cut, tail);
    }
  }

  lemma OrderedAppend(a: seq<Word>, b: seq<Word>)
    requires InOrder(a) && InOrder(b) && b != [] && forall i :: 0 <= i < |a| ==> a[i].endUs <= b[0].startUs
    ensures InOrder(a + b)
  {
    forall j | 0 <= j < |b| ensures b[0].startUs <= b[j].startUs {
      if j > 0 { assert b[0].endUs <= b[j].startUs; }
    }
  }

  lemma JoinKeepsOrdinals(result: seq<Word>, current: seq<Word>, priorBegin: nat, m: Match, index: nat)
    requires Fits(result, current, priorBegin, m) && InOrder(result) && OrdinalsRise(result)
    requires forall i :: 0 <= i < |result| ==> result[i].chunkOrdinal <= index
    requires forall i :: 0 <= i < |current| ==> current[i].chunkOrdinal == index
    ensures OrdinalsRise(Join(result, current, priorBegin, m))
    ensures forall i :: 0 <= i < |Join(result, current, priorBegin, m)| ==> Join(result, current, priorBegin, m)[i].chunkOrdinal <= index
  {
    var seam := SeamOf(result, current, priorBegin, m);
    if seam.appendFrom < |current| {
      CutIsShortened(result, current, priorBegin, m);
      var cut, tail := Cut(result, current, priorBegin, m), current[seam.appendFrom..];
      assert Join(result, current, priorBegin, m) == cut + tail;
      hide Cut, SeamOf, Join;
      assert forall k :: 0 <= k < |cut| ==> cut[k].chunkOrdinal == result[k].chunkOrdinal;
    }
  }

  lemma JoinKeepsTrace(result: seq<Word>, current: seq<Word>, priorBegin: nat, m: Match, all: seq<Word>, from: seq<nat>)
    returns (next: seq<nat>)
    requires Fits(result, current, priorBegin, m) && InOrder(result) && Traced(result, all, from)
    ensures Traced(Join(result, current, priorBegin, m), all + current, next)
  {
    var seam := SeamOf(result, current, priorBegin, m);
    if seam.appendFrom < |current| {
      CutIsShortened(result, current, priorBegin, m);
      var cut, tail := Cut(result, current, priorBegin, m), current[seam.appendFrom..];
      var joined := Join(result, current, priorBegin, m);
      assert joined == cut + tail;
      hide Cut, SeamOf, Join;
      next := from[..|cut|] + seq(|tail|, i requires 0 <= i < |tail| => |all| + seam.appendFrom + i);
      forall k: nat ensures TracedAt(joined, all + current, next, k) { assert TracedAt(result, all, from, k); }
      forall i, j | 0 <= i < j < |next| ensures next[i] < next[j] { assert TracedAt(result, all, from, i); }
    } else {
      next := from;
      forall k: nat ensures TracedAt(result, all + current, next, k) { assert TracedAt(result, all, from, k); }
    }
  }

  /** Chunks that leave a gap and share no anchor are simply put one after the other. */
  lemma GapsJoinUnchanged(result: seq<Word>, current: seq<Word>, priorBegin: nat, m: Match)
    requires Fits(result, current, priorBegin, m) && InOrder(result) && current != []
    requires m.length < MINIMUM_ALIGNED_OVERLAP_TOKENS && result[|result| - 1].endUs <= current[0].startUs
    ensures Join(result, current, priorBegin, m) == result + current
  {
    assert SkipUntil(current, result[|result| - 1].endUs, 0) == 0;
    assert result[..|result|] == result && current[0..] == current;
  }

  // ---- The whole transcript ----

  /** All words of the first `n` chunks, on the source's clock. */
  function AllWords(chunkWords: seq<seq<Word>>, chunks: seq<ChunkPlan>, n: nat): seq<Word>
    requires n <= |chunkWords| == |chunks|
  {
    if n == 0 then [] else AllWords(chunkWords, chunks, n - 1) + Timed(chunkWords[n - 1], chunks[n - 1])
  }

  ghost predicate JoinedAt(chunkWords: seq<seq<Word>>, chunks: seq<ChunkPlan>, steps: seq<seq<Word>>, i: nat) {
    i < |chunks| && i < |chunkWords| && i + 1 < |steps| ==> Joined(steps[i], chunkWords[i], chunks[i], i, steps[i + 1])
  }

  /** The transcript after no chunk, one chunk, and so on to the last. */
  ghost predicate Reconciled(chunkWords: seq<seq<Word>>, chunks: seq<ChunkPlan>, steps: seq<seq<Word>>) {
    && |chunkWords| == |chunks| && |steps| == |chunks| + 1 && steps[0] == []
    && forall i :: JoinedAt(chunkWords, chunks, steps, i)
  }

  /** Each chunk's words are in order, do not overlap and carry the chunk's ordinal. */
  ghost predicate ChunkInOrder(chunkWords: seq<seq<Word>>, chunks: seq<ChunkPlan>, i: nat) {
    i < |chunks| && i < |chunkWords| ==>
      var current := Timed(chunkWords[i], chunks[i]);
      InOrder(current) && forall k :: 0 <= k < |current| ==> current[k].chunkOrdinal == i
  }

  /** Joining, whichever case applies. */
  lemma JoinedKeeps(result: seq<Word>, words: seq<Word>, chunk: ChunkPlan, index: nat, next: seq<Word>, all: seq<Word>, from: seq<nat>)
    returns (trace: seq<nat>)
    requires Joined(result, words, chunk, index, next)
    requires InOrder(result) && OrdinalsRise(result) && Traced(result, all, from)
    requires forall i :: 0 <= i < |result| ==> result[i].chunkOrdinal <= index
    requires InOrder(Timed(words, chunk)) && forall k :: 0 <= k < |Timed(words, chunk)| ==> Timed(words, chunk)[k].chunkOrdinal == index
    ensures InOrder(next) && OrdinalsRise(next) && forall i :: 0 <= i < |next| ==> next[i].chunkOrdinal <= index
    ensures Traced(next, all + Timed(words, chunk), trace)
  {
    hide InOrder, OrdinalsRise, Traced, Join, IsBest, Tokens, StartingBefore, TailBegin, Fits;
    var current := Timed(words, chunk);
    if current == [] {
      assert all + current == all;
      trace := from;
    } else if result == [] {
      trace := FirstChunk(current, index, all);
    } else {
      var begin, m := |result|, Match(0, 0, 0);
      if index > 0 && result[|result| - 1].chunkOrdinal == index - 1 {
        begin := TailBegin(result, index - 1);
        var end := chunk.sourceStartUs + chunk.overlapBeforeUs;
        m :| JoinedBy(result, current, begin, end, m, next);
        BestFits(result, current, begin, end, m);
      } else {
        NoMatchFits(result, current);
      }
      JoinKeepsOrder(result, current, begin, m);
      JoinKeepsOrdinals(result, current, begin, m, index);
      trace := JoinKeepsTrace(result, current, begin, m, all, from);
    }
  }

  lemma NoMatchFits(result: seq<Word>, current: seq<Word>)
    requires result != []
    ensures Fits(result, current, |result|, Match(0, 0, 0))
  {
  }

  lemma FirstChunk(current: seq<Word>, index: nat, all: seq<Word>) returns (trace: seq<nat>)
    requires forall i :: 0 <= i < |current| ==> current[i].chunkOrdinal == index
    ensures OrdinalsRise(current) && Traced(current, all + current, trace)
  {
    trace := seq(|current|, i requires 0 <= i < |current| => |all| + i);
    forall k: nat ensures TracedAt(current, all + current, trace, k) {}
  }

  /** If each chunk's words are in order, so are the transcript's: of positive length, never overlapping, with
      chunk ordinals that never fall, and a subsequence of all words in which only ends were shortened. */
  lemma {:induction false} TranscriptIsSound(chunkWords: seq<seq<Word>>, chunks: seq<ChunkPlan>, steps: seq<seq<Word>>, n: nat)
    returns (from: seq<nat>)
    requires Reconciled(chunkWords, chunks, steps) && n <= |chunks|
    requires forall i :: ChunkInOrder(chunkWords, chunks, i)
    ensures InOrder(steps[n]) && OrdinalsRise(steps[n])
    ensures forall i :: 0 <= i < |steps[n]| ==> steps[n][i].chunkOrdinal < n
    ensures Traced(steps[n], AllWords(chunkWords, chunks, n), from)
  {
    if n == 0 {
      from := [];
    } else {
      var p := n - 1;
      from := TranscriptIsSound(chunkWords, chunks, steps, p);
      assert JoinedAt(chunkWords, chunks, steps, p) && ChunkInOrder(chunkWords, chunks, p);
      from := JoinedKeeps(steps[p], chunkWords[p], chunks[p], p, steps[n], AllWords(chunkWords, chunks, p), from);
    }
  }

  // ---- The algorithm ----

  datatype ReconcileError = SizesDiffer

  method GloballyTimedWords(words: seq<Word>, chunk: ChunkPlan) returns (adjusted: seq<Word>)
    ensures adjusted == Timed(words, chunk)
  {
    adjusted := [];
    for i := 0 to |words|
      invariant adjusted == Timed(words[..i], chunk)
    {
      assert words[..i + 1][..i] == words[..i];
      if words[i].endUs <= words[i].startUs {
        continue;
      }
      adjusted := adjusted + [words[i].(startUs := words[i].startUs + chunk.sourceStartUs, endUs := words[i].endUs + chunk.sourceStartUs)];
    }
    assert words[..|words|] == words;
  }

  /** The best match between the tail of the transcript and the start of the chunk, and where that tail begins. */
  method MatchOverlap(result: seq<Word>, current: seq<Word>, chunk: ChunkPlan, index: nat) returns (begin: nat, best: Match)
    requires index > 0 && result != []
    ensures begin == TailBegin(result, index - 1)
    ensures IsBest(Tokens(result[begin..]), Tokens(StartingBefore(current, chunk.sourceStartUs + chunk.overlapBeforeUs)), best)
  {
    var overlapEnd := chunk.sourceStartUs + chunk.overlapBeforeUs;
    begin := |result|;
    assert result[..begin] == result;
    while begin > 0 && result[begin - 1].chunkOrdinal == index - 1
      invariant 0 <= begin <= |result|
      invariant TailBegin(result, index - 1) == TailBegin(result[..begin], index - 1)
    {
      assert result[..begin][..begin - 1] == result[..begin - 1];
      begin := begin - 1;
    }
    var overlap: seq<Word> := [];
    for i := 0 to |current|
      invariant overlap == StartingBefore(current[..i], overlapEnd)
    {
      assert current[..i + 1][..i] == current[..i];
      if current[i].startUs < overlapEnd {
        overlap := overlap + [current[i]];
      }
    }
    assert current[..|current|] == current;
    best := LongestContiguousMatch(Tokens(result[begin..]), Tokens(overlap));
  }

  /** The first word that starts no earlier than `end`. */
  method FindContinuation(current: seq<Word>, end: int) returns (from: nat)
    ensures from == SkipUntil(current, end, 0)
  {
    from := 0;
    while from < |current| && current[from].startUs < end
      invariant 0 <= from <= |current|
      invariant SkipUntil(current, end, 0) == SkipUntil(current, end, from)
    {
      from := from + 1;
    }
  }

  /** Drops the words from the seam on, and trims the last one left to end there. */
  method CutAt(words: seq<Word>, seamStart: int) returns (next: seq<Word>)
    ensures next == TrimLast(DropFrom(words, seamStart), seamStart)
  {
    next := words;
    while next != [] && next[|next| - 1].startUs >= seamStart
      invariant DropFrom(words, seamStart) == DropFrom(next, seamStart)
      decreases |next|
    {
      next := next[..|next| - 1];
    }
    if next != [] && next[|next| - 1].endUs > seamStart {
      next := next[|next| - 1 := next[|next| - 1].(endUs := seamStart)];
    }
  }

  /** Cuts the transcript at the seam and appends the chunk's continuation. */
  method JoinChunk(result: seq<Word>, current: seq<Word>, priorBegin: nat, m: Match) returns (next: seq<Word>)
    requires Fits(result, current, priorBegin, m)
    ensures next == Join(result, current, priorBegin, m)
  {
    hide TrimLast, DropFrom, SkipUntil, SameAudio;
    var appendFrom, keptPriorEnd: nat := 0, |result|;
    if m.length >= MINIMUM_ALIGNED_OVERLAP_TOKENS {
      appendFrom := m.CurrentEnd();
      if SameAudio(result, current, priorBegin, m) {
        keptPriorEnd := priorBegin + m.PriorEnd();
      }
    } else {
      appendFrom := FindContinuation(current, result[|result| - 1].endUs);
    }
    if appendFrom >= |current| {
      return result;
    }
    next := CutAt(result[..keptPriorEnd], current[appendFrom].startUs);
    next := Append(next, current, appendFrom);
  }

  method Append(result: seq<Word>, current: seq<Word>, from: nat) returns (longer: seq<Word>)
    requires from <= |current|
    ensures longer == result + current[from..]
  {
    longer := result;
    for i := from to |current|
      invariant longer == result + current[from..i]
    {
      assert current[from..i + 1] == current[from..i] + [current[i]];
      longer := longer + [current[i]];
    }
    assert current[from..|current|] == current[from..];
  }

  /** Adds chunk `index` to the transcript. */
  method AddChunk(result: seq<Word>, words: seq<Word>, chunk: ChunkPlan, index: nat) returns (next: seq<Word>)
    ensures Joined(result, words, chunk, index, next)
  {
    hide IsBest, Tokens, StartingBefore, TailBegin, Join, Fits;
    var current := GloballyTimedWords(words, chunk);
    if current == [] {
      return result;
    }
    if result == [] {
      return current;
    }
    if index > 0 && result[|result| - 1].chunkOrdinal == index - 1 {
      var begin, best := MatchOverlap(result, current, chunk, index);
      ghost var end := chunk.sourceStartUs + chunk.overlapBeforeUs;
      BestFits(result, current, begin, end, best);
      next := JoinChunk(result, current, begin, best);
      assert JoinedBy(result, current, begin, end, best, next);
    } else {
      NoMatchFits(result, current);
      next := JoinChunk(result, current, |result|, Match(0, 0, 0));
    }
  }

  method ReconcileOverlappingChunks(chunkWords: seq<seq<Word>>, chunks: seq<ChunkPlan>)
    returns (r: Result<seq<Word>, ReconcileError>, ghost steps: seq<seq<Word>>)
    ensures r.Ok? <==> |chunkWords| == |chunks|
    ensures r.Ok? ==> Reconciled(chunkWords, chunks, steps) && r.value == steps[|chunks|]
  {
    hide Joined;
    steps := [[]];
    if |chunkWords| != |chunks| {
      return Err(SizesDiffer), steps;
    }
    var result: seq<Word> := [];
    for index := 0 to |chunks|
      invariant |steps| == index + 1 && steps[0] == [] && result == steps[index]
      invariant forall i :: JoinedAt(chunkWords, chunks, steps, i)
    {
      ghost var earlier := steps;
      result := AddChunk(result, chunkWords[index], chunks[index], index);
      steps := steps + [result];
      forall i: nat ensures JoinedAt(chunkWords, chunks, steps, i) { assert JoinedAt(chunkWords, chunks, earlier, i); }
    }
    return Ok(result), steps;
  }
}
