/**
 What joining a chunk to a transcript keeps and adds, word by word, in terms of times and of equal tokens alone
 (asr_chunk_reconciliation.cpp).
 */
module AsrSeams {
  import opened AsrReconciliation

  // ---- Words and tokens ----

  /** The word on the source's clock. */
  function Shifted(word: Word, offset: int): Word {
    word.(startUs := word.startUs + offset, endUs := word.endUs + offset)
  }

  /** `from` lists, in order, the words of positive length. */
  ghost predicate PositiveOnes(words: seq<Word>, from: seq<nat>) {
    && (forall i, j :: 0 <= i < j < |from| ==> from[i] < from[j])
    && (forall i: nat :: i in from <==> i < |words| && words[i].startUs < words[i].endUs)
  }

  /** Exactly the words of positive length take part, shifted by the start of their chunk. */
  lemma {:induction false} TimedMeans(words: seq<Word>, chunk: ChunkPlan) returns (from: seq<nat>)
    ensures PositiveOnes(words, from) && |Timed(words, chunk)| == |from|
    ensures forall k :: 0 <= k < |from| ==> from[k] < |words| && Timed(words, chunk)[k] == Shifted(words[from[k]], chunk.sourceStartUs)
  {
    if words == [] {
      from := [];
    } else {
      var n := |words| - 1;
      var before := TimedMeans(words[..n], chunk);
      assert forall k :: 0 <= k < |before| ==> before[k] in before;
      if words[n].startUs < words[n].endUs {
        from := before + [n];
        assert forall i :: i in from <==> i in before || i == n;
      } else {
        from := before;
      }
    }
  }

  predicate IsDigit(c: char) { '0' <= c <= '9' }

  predicate IsSmall(c: char) { 'a' <= c <= 'z' }

  predicate IsCapital(c: char) { 'A' <= c <= 'Z' }

  /** A token is made of its word's letters and digits one by one: anything else does not matter, nor does case. */
  lemma NormalizedMeans(text: string, c: char)
    ensures !IsDigit(c) && !IsSmall(c) && !IsCapital(c) ==> Normalized([c] + text) == Normalized(text)
    ensures IsDigit(c) || IsSmall(c) ==> Normalized([c] + text) == [c] + Normalized(text)
    ensures IsCapital(c) ==> Normalized([c] + text) == Normalized([c - 'A' + 'a'] + text)
    ensures Normalized("") == ""
  {
    NormalizedHead(text, c);
    if IsCapital(c) { NormalizedHead(text, c - 'A' + 'a'); }
    hide Normalized;
  }

  lemma NormalizedHead(text: string, c: char)
    ensures Normalized([c] + text) == if IsAlnum(c) then [ToLower(c)] + Normalized(text) else Normalized(text)
    ensures Normalized("") == ""
  {
    assert ([c] + text)[1..] == text;
  }

  // ---- Joining, told by times ----

  /** The word, ended at the seam at the latest. */
  function EndedBy(word: Word, seam: int): Word {
    if word.endUs > seam then word.(endUs := seam) else word
  }

  /** The first `n` words are those of the first `bound` that start before the seam. */
  ghost predicate StartBefore(result: seq<Word>, bound: nat, seam: int, n: nat) {
    n <= bound <= |result| && forall k :: 0 <= k < bound ==> (k < n <==> result[k].startUs < seam)
  }

  /** The chunk takes over at its word `from`: of the first `bound` words of the transcript those that start before it
      stay, ended there at the latest, and the chunk follows from that word to its end. */
  ghost predicate TakesOver(result: seq<Word>, current: seq<Word>, bound: nat, from: nat, next: seq<Word>) {
    && from <= |current| && bound <= |result|
    && if from == |current| then next == result
       else exists n: nat :: StartBefore(result, bound, current[from].startUs, n)
                        && next == seq(n, k requires 0 <= k < n => EndedBy(result[k], current[from].startUs)) + current[from..]
  }

  /** The first word of the chunk that does not start before `end`. */
  ghost predicate FirstFrom(current: seq<Word>, end: int, from: nat) {
    && from <= |current| && (forall k :: 0 <= k < from ==> current[k].startUs < end)
    && (from < |current| ==> current[from].startUs >= end)
  }

  /** The two copies of the matched words overlap in time. */
  ghost predicate OverlapInTime(result: seq<Word>, current: seq<Word>, begin: nat, m: Match) {
    && begin + m.priorStart + m.length <= |result| && m.currentStart + m.length <= |current| && m.length > 0
    && result[begin + m.priorStart + m.length - 1].endUs > current[m.currentStart].startUs
    && current[m.currentStart + m.length - 1].endUs > result[begin + m.priorStart].startUs
  }

  /** With a match of four tokens or more the chunk takes over right after it, and what the transcript had after its own
      copy of the same audio goes; with less it takes over where the transcript ends. */
  ghost predicate JoinsAt(result: seq<Word>, current: seq<Word>, begin: nat, m: Match, next: seq<Word>)
    requires result != []
  {
    if m.length >= 4 then
      TakesOver(result, current, if OverlapInTime(result, current, begin, m) then begin + m.priorStart + m.length else |result|,
                m.currentStart + m.length, next)
    else
      exists from: nat :: FirstFrom(current, result[|result| - 1].endUs, from) && TakesOver(result, current, |result|, from, next)
  }

  ghost predicate StartsRise(words: seq<Word>) {
    forall i, j :: 0 <= i < j < |words| ==> words[i].startUs < words[j].startUs
  }

  lemma OrderMakesStartsRise(words: seq<Word>)
    requires InOrder(words)
    ensures StartsRise(words)
  {
    forall i, j | 0 <= i < j < |words| ensures words[i].startUs < words[j].startUs {
      assert words[i].startUs < words[i].endUs <= words[j].startUs;
    }
  }

  lemma {:induction false} DroppedFrom(result: seq<Word>, seam: int)
    requires StartsRise(result)
    ensures StartBefore(result, |result|, seam, |DropFrom(result, seam)|)
  {
    if result != [] {
      var n := |result| - 1;
      assert forall k :: 0 <= k < n ==> result[..n][k] == result[k] && result[k].startUs < result[n].startUs;
      if result[n].startUs >= seam {
        DroppedFrom(result[..n], seam);
        assert DropFrom(result, seam) == DropFrom(result[..n], seam);
        hide StartsRise, DropFrom;
      }
    }
  }

  lemma CutMeans(result: seq<Word>, bound: nat, seam: int)
    requires InOrder(result) && bound <= |result|
    ensures var n, cut := |DropFrom(result[..bound], seam)|, TrimLast(DropFrom(result[..bound], seam), seam);
            StartBefore(result, bound, seam, n) && cut == seq(n, k requires 0 <= k < n => EndedBy(result[k], seam))
  {
    var kept := DropFrom(result[..bound], seam);
    OrderMakesStartsRise(result[..bound]);
    DroppedFrom(result[..bound], seam);
    assert forall k :: 0 <= k < |kept| ==> kept[k] == result[k];
    assert forall k :: 0 <= k < bound ==> result[..bound][k] == result[k];
    hide DropFrom;
    TrimMeans(result, kept, seam);
  }

  lemma TrimMeans(result: seq<Word>, kept: seq<Word>, seam: int)
    requires InOrder(result) && |kept| <= |result| && forall k :: 0 <= k < |kept| ==> kept[k] == result[k] && result[k].startUs < seam
    ensures TrimLast(kept, seam) == seq(|kept|, k requires 0 <= k < |kept| => EndedBy(result[k], seam))
  {
    var n := |kept|;
    forall k | 0 <= k < n - 1 ensures result[k].endUs <= seam { assert result[k].endUs <= result[n - 1].startUs; }
  }

  lemma SkipMeans(current: seq<Word>, end: int)
    ensures FirstFrom(current, end, SkipUntil(current, end, 0))
  {
  }

  lemma JoinMeans(result: seq<Word>, current: seq<Word>, begin: nat, m: Match)
    requires Fits(result, current, begin, m) && InOrder(result)
    ensures JoinsAt(result, current, begin, m, Join(result, current, begin, m))
  {
    hide InOrder, DropFrom, TrimLast, SkipUntil, TakesOver, FirstFrom, Join;
    JoinTakesOver(result, current, begin, m);
    SkipMeans(current, result[|result| - 1].endUs);
  }

  lemma JoinTakesOver(result: seq<Word>, current: seq<Word>, begin: nat, m: Match)
    requires Fits(result, current, begin, m) && InOrder(result)
    ensures var seam := SeamOf(result, current, begin, m);
            TakesOver(result, current, seam.keptPriorEnd, seam.appendFrom, Join(result, current, begin, m))
  {
    hide InOrder, DropFrom, TrimLast, SeamOf, StartBefore;
    var seam := SeamOf(result, current, begin, m);
    if seam.appendFrom < |current| { CutMeans(result, seam.keptPriorEnd, current[seam.appendFrom].startUs); }
  }

  // ---- Joining, told by tokens ----

  /** The words at the end of the transcript that come from the chunk before begin at `begin`. */
  ghost predicate TailFrom(result: seq<Word>, ordinal: int, begin: nat) {
    && begin <= |result| && (forall k :: begin <= k < |result| ==> result[k].chunkOrdinal == ordinal)
    && (begin > 0 ==> result[begin - 1].chunkOrdinal != ordinal)
  }

  /** Joined at the best match of the predecessor's words and of those words of the chunk that start in the overlap. */
  ghost predicate JoinsBest(result: seq<Word>, current: seq<Word>, ordinal: int, overlapEnd: int, next: seq<Word>)
    requires result != []
  {
    exists begin: nat, n: nat, m ::
      && TailFrom(result, ordinal, begin) && StartBefore(current, |current|, overlapEnd, n)
      && IsBest(Tokens(result[begin..]), Tokens(current[..n]), m) && JoinsAt(result, current, begin, m, next)
  }

  lemma {:induction false} TailBegins(result: seq<Word>, ordinal: int)
    ensures TailFrom(result, ordinal, TailBegin(result, ordinal))
  {
    if result != [] && result[|result| - 1].chunkOrdinal == ordinal { TailBegins(result[..|result| - 1], ordinal); }
  }

  lemma {:induction false} OverlapIsPrefix(current: seq<Word>, end: int)
    requires StartsRise(current)
    ensures var n := |StartingBefore(current, end)|;
            n <= |current| && StartingBefore(current, end) == current[..n] && StartBefore(current, |current|, end, n)
  {
    if current != [] {
      var last := |current| - 1;
      OverlapIsPrefix(current[..last], end);
      OneMoreStarts(current, end, |StartingBefore(current[..last], end)|);
    }
  }

  lemma OneMoreStarts(current: seq<Word>, end: int, n: nat)
    requires current != [] && StartsRise(current) && n < |current| && StartBefore(current[..|current| - 1], |current| - 1, end, n)
    ensures var last := |current| - 1;
            var longer := current[..last][..n] + if current[last].startUs < end then [current[last]] else [];
            |longer| <= |current| && longer == current[..|longer|] && StartBefore(current, |current|, end, |longer|)
  {
    var last := |current| - 1;
    assert forall k :: 0 <= k < last ==> current[..last][k] == current[k];
    assert n < last ==> end <= current[..last][n].startUs && current[n].startUs < current[last].startUs;
  }

  /** What joining makes of the transcript, in plain terms. */
  ghost predicate JoinedPlainly(result: seq<Word>, current: seq<Word>, index: nat, overlapEnd: int, next: seq<Word>) {
    if current == [] then next == result
    else if result == [] then next == current
    else if index > 0 && result[|result| - 1].chunkOrdinal == index - 1 then JoinsBest(result, current, index - 1, overlapEnd, next)
    else JoinsAt(result, current, |result|, Match(0, 0, 0), next)
  }

  lemma JoinedMeans(result: seq<Word>, words: seq<Word>, chunk: ChunkPlan, index: nat, next: seq<Word>)
    requires Joined(result, words, chunk, index, next) && InOrder(result) && InOrder(Timed(words, chunk))
    ensures JoinedPlainly(result, Timed(words, chunk), index, chunk.sourceStartUs + chunk.overlapBeforeUs, next)
  {
    var current, end := Timed(words, chunk), chunk.sourceStartUs + chunk.overlapBeforeUs;
    hide IsBest, Join, JoinsAt, InOrder, Fits;
    if current != [] && result != [] {
      if index > 0 && result[|result| - 1].chunkOrdinal == index - 1 {
        var begin := TailBegin(result, index - 1);
        var m :| JoinedBy(result, current, begin, end, m, next);
        TailBegins(result, index - 1);
        OrderMakesStartsRise(current);
        OverlapIsPrefix(current, end);
        BestFits(result, current, begin, end, m);
        JoinMeans(result, current, begin, m);
        assert StartingBefore(current, end) == current[..|StartingBefore(current, end)|];
      } else {
        NoMatchFits(result, current);
        JoinMeans(result, current, |result|, Match(0, 0, 0));
      }
    }
  }

  // ---- Nothing of a continuation is lost ----

  /** The transcript ends with the chunk's words from `k` on, unchanged. */
  predicate EndsWith(next: seq<Word>, current: seq<Word>, k: nat)
    requires k <= |current|
  {
    |next| >= |current| - k && next[|next| - (|current| - k)..] == current[k..]
  }

  lemma TakenOverEnds(result: seq<Word>, current: seq<Word>, bound: nat, from: nat, next: seq<Word>, k: nat)
    requires TakesOver(result, current, bound, from, next) && from <= k < |current|
    ensures EndsWith(next, current, k)
  {
    assert current[from..][k - from..] == current[k..];
  }

  /** Every word of a chunk that starts neither in the overlap nor before the transcript so far has ended is in the next
      transcript, unchanged, with all that follow it. */
  lemma ContinuationIsKept(result: seq<Word>, words: seq<Word>, chunk: ChunkPlan, index: nat, next: seq<Word>, k: nat)
    requires Joined(result, words, chunk, index, next) && InOrder(result) && InOrder(Timed(words, chunk))
    requires k < |Timed(words, chunk)| && Timed(words, chunk)[k].startUs >= chunk.sourceStartUs + chunk.overlapBeforeUs
    requires result != [] ==> Timed(words, chunk)[k].startUs >= result[|result| - 1].endUs
    ensures EndsWith(next, Timed(words, chunk), k)
  {
    hide Joined, InOrder, Timed, JoinsAt, JoinsBest, IsBest;
    var current, end := Timed(words, chunk), chunk.sourceStartUs + chunk.overlapBeforeUs;
    JoinedMeans(result, words, chunk, index, next);
    if result != [] {
      if index > 0 && result[|result| - 1].chunkOrdinal == index - 1 {
        BestEnds(result, current, index - 1, end, next, k);
      } else {
        JoinEnds(result, current, |result|, Match(0, 0, 0), next, k);
      }
    }
  }

  lemma BestEnds(result: seq<Word>, current: seq<Word>, ordinal: int, end: int, next: seq<Word>, k: nat)
    requires result != [] && JoinsBest(result, current, ordinal, end, next) && k < |current|
    requires current[k].startUs >= end && current[k].startUs >= result[|result| - 1].endUs
    ensures EndsWith(next, current, k)
  {
    hide JoinsAt;
    var begin: nat, n: nat, m :| TailFrom(result, ordinal, begin) && StartBefore(current, |current|, end, n)
                                 && IsBest(Tokens(result[begin..]), Tokens(current[..n]), m) && JoinsAt(result, current, begin, m, next);
    BestWithin(Tokens(result[begin..]), Tokens(current[..n]), m);
    hide IsBest;
    JoinEnds(result, current, begin, m, next, k);
  }

  lemma BestWithin(prior: seq<string>, current: seq<string>, m: Match)
    requires IsBest(prior, current, m)
    ensures m.currentStart + m.length <= |current|
  {
  }

  lemma JoinEnds(result: seq<Word>, current: seq<Word>, begin: nat, m: Match, next: seq<Word>, k: nat)
    requires result != [] && JoinsAt(result, current, begin, m, next) && m.currentStart + m.length <= k < |current|
    requires current[k].startUs >= result[|result| - 1].endUs
    ensures EndsWith(next, current, k)
  {
    hide TakesOver;
    if m.length >= 4 {
      TakenOverEnds(result, current, if OverlapInTime(result, current, begin, m) then begin + m.priorStart + m.length else |result|,
                    m.currentStart + m.length, next, k);
    } else {
      var from: nat :| FirstFrom(current, result[|result| - 1].endUs, from) && TakesOver(result, current, |result|, from, next);
      TakenOverEnds(result, current, |result|, from, next, k);
    }
  }

  /** So every transcript is joined, chunk after chunk, in these plain terms. */
  lemma TranscriptIsJoined(chunkWords: seq<seq<Word>>, chunks: seq<ChunkPlan>, steps: seq<seq<Word>>, i: nat)
    requires Reconciled(chunkWords, chunks, steps) && i < |chunks| && forall j :: ChunkInOrder(chunkWords, chunks, j)
    ensures JoinedPlainly(steps[i], Timed(chunkWords[i], chunks[i]), i, chunks[i].sourceStartUs + chunks[i].overlapBeforeUs, steps[i + 1])
  {
    var from := TranscriptIsSound(chunkWords, chunks, steps, i);
    assert JoinedAt(chunkWords, chunks, steps, i) && ChunkInOrder(chunkWords, chunks, i);
    JoinedMeans(steps[i], chunkWords[i], chunks[i], i, steps[i + 1]);
  }
}
