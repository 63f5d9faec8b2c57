/** Loss events: how losses are grouped, what the count means, and what quarantines an executor. */
module SchedulerLosses {
  import opened Basics
  import opened ResultVerification
  import opened SchedulerState
  import opened SchedulerSteps
  import opened SchedulerResume
  import opened SchedulerRuns

  /** The lease an event loses: its executor was lost, or it expired, or it ran past its deadline. */
  function LostLease(s: State, event: Event): (l: Option<nat>)
    ensures l.Some? ==> l.value in s.leases
  {
    match event
    case AttemptFailed(l, ExecutorLost) => if s.failure.None? && l in s.leases then Some(l) else None
    case LeaseEnded(l, now) => if s.failure.None? && l in s.leases && Ended(s.leases[l], now) then Some(l) else None
    case _ => None
  }

  /** The lease an event brings an invalid result of. */
  function CorruptLease(cfg: Config, s: State, event: Event): (l: Option<nat>)
    requires Shaped(cfg, s)
    ensures l.Some? ==> l.value in s.leases
  {
    match event
    case AttemptFailed(l, InvalidResult) => if s.failure.None? && l in s.leases then Some(l) else None
    case Finished(l, output, _) =>
      if s.failure.None? && l in s.leases && VerdictOf(cfg, s, l, output) == Invalid then Some(l) else None
    case _ => None
  }

  /** The lease an event brings a verified result of. */
  function ProvenLease(cfg: Config, s: State, event: Event): (l: Option<nat>)
    requires Shaped(cfg, s)
    ensures l.Some? ==> l.value in s.leases
  {
    if SuccessIn(cfg, s, event).Some? then Some(event.lease) else None
  }

  /** The part of an executor's record that loss counting uses, and the number of the next lease. */
  datatype Losses = Losses(events: nat, horizon: nat, quarantined: bool, next: nat)

  function LossesOf(s: State, e: nat): Losses
    requires e < |s.executors|
  {
    Losses(s.executors[e].lossEvents, s.executors[e].lossHorizon, s.executors[e].quarantined, s.nextLease)
  }

  /** What one event does to the loss record of executor `e`, in terms of leases only. */
  function NextLosses(cfg: Config, s: State, event: Event, e: nat): Losses
    requires Shaped(cfg, s) && e < cfg.Executors()
  {
    var before := LossesOf(s, e);
    var lost, corrupt, proven := LostLease(s, event), CorruptLease(cfg, s, event), ProvenLease(cfg, s, event);
    if lost.Some? then AfterLoss(cfg, before, lost.value, s.leases[lost.value].executor, e)
    else if corrupt.Some? && s.leases[corrupt.value].executor == e then before.(quarantined := true)
    else if proven.Some? && s.leases[proven.value].executor == e && proven.value >= before.horizon then
      before.(events := 0)
    else if s.failure.None? && event.Grant? then before.(next := before.next + 1)
    else before
  }

  lemma QuarantineLosses(cfg: Config, s: State, x: nat, e: nat)
    requires Shaped(cfg, s) && x < cfg.Executors() && e < cfg.Executors()
    ensures LossesOf(Quarantine(cfg, s, x), e) ==
            if x == e then LossesOf(s, e).(quarantined := true) else LossesOf(s, e)
  {
  }

  lemma CountLossLosses(cfg: Config, s: State, l: nat, x: nat, e: nat)
    requires Shaped(cfg, s) && x < cfg.Executors() && e < cfg.Executors()
    ensures LossesOf(CountLoss(cfg, s, l, x), e) == AfterLoss(cfg, LossesOf(s, e), l, x, e)
  {
    QuarantineLosses(cfg, RecordLoss(cfg, s, x), x, e);
  }

  lemma AttemptLostLosses(cfg: Config, s: State, t: nat, x: nat, e: nat)
    requires Shaped(cfg, s) && t < cfg.Tasks() && e < cfg.Executors()
    ensures LossesOf(AttemptLost(cfg, s, t, x), e) == LossesOf(s, e)
  {
  }

  lemma SuccessLosses(cfg: Config, s: State, l: nat, lease: Lease, output: AttemptOutput, throws: bool, e: nat)
    requires Shaped(cfg, s) && lease.task < cfg.Tasks() && lease.executor < cfg.Executors() && e < cfg.Executors()
    ensures LossesOf(VerifiedSuccess(cfg, s, l, lease, output, throws), e) ==
            if lease.executor == e && l >= LossesOf(s, e).horizon then LossesOf(s, e).(events := 0) else LossesOf(s, e)
  {
  }

  lemma ReleaseLosses(cfg: Config, s: State, l: nat, e: nat)
    requires Shaped(cfg, s) && l in s.leases && e < cfg.Executors()
    ensures LossesOf(Release(cfg, s, l), e) == LossesOf(s, e)
    ensures LossesOf(ReleaseFinished(cfg, s, l), e) == LossesOf(s, e)
  {
  }

  /** The loss record after the loss of lease `l` of executor `x`. */
  function AfterLoss(cfg: Config, before: Losses, l: nat, x: nat, e: nat): Losses
    requires cfg.Shaped() && e < cfg.Executors()
  {
    if x != e || cfg.neverQuarantinedForLoss[e] || l < before.horizon then before
    else Losses(before.events + 1, before.next,
                before.quarantined || before.events + 1 >= cfg.quarantineAfterLossEvents, before.next)
  }

  lemma LostLosses(cfg: Config, s: State, l: nat, t: nat, x: nat, e: nat)
    requires Shaped(cfg, s) && t < cfg.Tasks() && x < cfg.Executors() && e < cfg.Executors()
    ensures LossesOf(AttemptLost(cfg, CountLoss(cfg, s, l, x), t, x), e) == AfterLoss(cfg, LossesOf(s, e), l, x, e)
  {
    CountLossLosses(cfg, s, l, x, e);
    AttemptLostLosses(cfg, CountLoss(cfg, s, l, x), t, x, e);
  }

  lemma InvalidLosses(cfg: Config, s: State, t: nat, x: nat, e: nat)
    requires Shaped(cfg, s) && t < cfg.Tasks() && x < cfg.Executors() && e < cfg.Executors()
    ensures LossesOf(AttemptLost(cfg, Quarantine(cfg, CountInvalid(s), x), t, x), e) ==
            if x == e then LossesOf(s, e).(quarantined := true) else LossesOf(s, e)
  {
    QuarantineLosses(cfg, CountInvalid(s), x, e);
    AttemptLostLosses(cfg, Quarantine(cfg, CountInvalid(s), x), t, x, e);
  }

  lemma FinishedLosses(cfg: Config, s: State, l: nat, output: AttemptOutput, throws: bool, e: nat)
    requires Shaped(cfg, s) && s.failure.None? && e < cfg.Executors() && l in s.leases
    ensures LossesOf(OnFinished(cfg, s, l, output, throws), e) == NextLosses(cfg, s, Finished(l, output, throws), e)
  {
    var lease := s.leases[l];
    var released := ReleaseFinished(cfg, s, l);
    ReleaseLosses(cfg, s, l, e);
    var verdict := VerdictOf(cfg, s, l, output);
    if verdict.Invalid? {
      InvalidLosses(cfg, released, lease.task, lease.executor, e);
    } else if verdict.Success? {
      SuccessLosses(cfg, released, l, lease, output, throws, e);
    } else if verdict.Retryable? {
      AttemptLostLosses(cfg, released, lease.task, lease.executor, e);
    }
  }

  lemma EndedLosses(cfg: Config, s: State, event: Event, e: nat)
    requires Shaped(cfg, s) && s.failure.None? && e < cfg.Executors()
    requires event.AttemptFailed? || event.LeaseEnded?
    requires event.lease in s.leases
    ensures LossesOf(Step(cfg, s, event), e) == NextLosses(cfg, s, event, e)
  {
    var l, lease := event.lease, s.leases[event.lease];
    var released := Release(cfg, s, l);
    ReleaseLosses(cfg, s, l, e);
    if event.LeaseEnded? {
      var noted := CountEnding(released, lease, event.now);
      LostLosses(cfg, noted, l, lease.task, lease.executor, e);
    } else if event.kind.InvalidResult? {
      InvalidLosses(cfg, released, lease.task, lease.executor, e);
    } else {
      LostLosses(cfg, released, l, lease.task, lease.executor, e);
    }
  }

  lemma RejectedLosses(cfg: Config, s: State, l: nat, now: int, e: nat)
    requires Shaped(cfg, s) && e < cfg.Executors()
    ensures LossesOf(OnRejected(cfg, s, l, now), e) == LossesOf(s, e)
  {
  }

  /** The handlers keep the loss records as the description by leases says. */
  lemma StepLosses(cfg: Config, s: State, event: Event, e: nat)
    requires Shaped(cfg, s) && Enabled(cfg, s, event) && e < cfg.Executors()
    ensures LossesOf(Step(cfg, s, event), e) == NextLosses(cfg, s, event, e)
  {
    if s.failure.None? && !event.Grant? && event.lease in s.leases {
      if event.Finished? {
        FinishedLosses(cfg, s, event.lease, event.output, event.sinkThrows, e);
      } else if event.Rejected? {
        RejectedLosses(cfg, s, event.lease, event.now, e);
      } else if !event.Heartbeat? {
        EndedLosses(cfg, s, event, e);
      }
    }
  }

  // ---- Runs, seen from one executor ----

  ghost predicate LossAt(cfg: Config, run: Run, e: nat, i: nat)
    requires |run.states| == |run.events| + 1
  {
    i < |run.events| ==>
      && Shaped(cfg, run.states[i]) && Shaped(cfg, run.states[i + 1])
      && e < |run.states[i].executors|
      && LossesOf(run.states[i + 1], e) == NextLosses(cfg, run.states[i], run.events[i], e)
  }

  ghost predicate LossRun(cfg: Config, run: Run, e: nat) {
    && e < cfg.Executors()
    && |run.states| == |run.events| + 1
    && Shaped(cfg, run.states[0]) && LossesOf(run.states[0], e) == Losses(0, 0, false, 1)
    && forall i :: LossAt(cfg, run, e, i)
  }

  lemma FirstLosses(cfg: Config, run: Run, e: nat)
    requires IsRun(cfg, run) && e < cfg.Executors()
    ensures Shaped(cfg, run.states[0]) && LossesOf(run.states[0], e) == Losses(0, 0, false, 1)
  {
    var s :| Untouched(cfg, s) && run.states[0] == Start(cfg, s);
  }

  lemma SoundRunHasLosses(cfg: Config, run: Run, e: nat, i: nat)
    requires SoundRun(cfg, run) && e < cfg.Executors()
    ensures LossAt(cfg, run, e, i)
  {
    if i < |run.events| {
      assert StepAt(cfg, run, i) && SoundAt(cfg, run, i) && SoundAt(cfg, run, i + 1);
      StepLosses(cfg, run.states[i], run.events[i], e);
    }
  }

  lemma RunHasLosses(cfg: Config, run: Run, e: nat)
    requires IsRun(cfg, run) && e < cfg.Executors()
    ensures LossRun(cfg, run, e)
  {
    RunIsSound(cfg, run);
    FirstLosses(cfg, run, e);
    forall i ensures LossAt(cfg, run, e, i) { SoundRunHasLosses(cfg, run, e, i); }
  }

  /** Step `i` loses lease `l` of executor `e`. */
  ghost predicate LostAt(run: Run, e: nat, i: nat, l: nat) {
    && i < |run.events| && i < |run.states|
    && LostLease(run.states[i], run.events[i]) == Some(l) && run.states[i].leases[l].executor == e
  }

  ghost predicate ProvenAt(cfg: Config, run: Run, e: nat, i: nat, l: nat) {
    && i < |run.events| && i < |run.states| && Shaped(cfg, run.states[i])
    && ProvenLease(cfg, run.states[i], run.events[i]) == Some(l) && run.states[i].leases[l].executor == e
  }

  ghost predicate CorruptAt(cfg: Config, run: Run, e: nat, i: nat) {
    && i < |run.events| && i < |run.states| && Shaped(cfg, run.states[i])
    && var l := CorruptLease(cfg, run.states[i], run.events[i]);
       l.Some? && run.states[i].leases[l.value].executor == e
  }

  lemma StateShaped(cfg: Config, run: Run, e: nat, i: nat)
    requires LossRun(cfg, run, e) && i < |run.states|
    ensures Shaped(cfg, run.states[i])
  {
    if i > 0 { assert LossAt(cfg, run, e, i - 1); }
  }

  /** Losing any number of leases that were outstanding at moment `a`, in any order and whatever happens in
      between, counts as at most one loss event: the slot count plays no part. */
  lemma {:induction false} OneEventPerOutage(cfg: Config, run: Run, e: nat, a: nat, b: nat)
    requires LossRun(cfg, run, e) && a <= b < |run.states|
    requires forall i: nat, l: nat :: a <= i < b && LostAt(run, e, i, l) ==> l < run.states[a].nextLease
    ensures Shaped(cfg, run.states[a]) && Shaped(cfg, run.states[b])
    ensures run.states[a].nextLease <= run.states[b].nextLease
    ensures LossesOf(run.states[b], e).events <= LossesOf(run.states[a], e).events + 1
    ensures LossesOf(run.states[b], e).horizon < run.states[a].nextLease ==>
              LossesOf(run.states[b], e).events <= LossesOf(run.states[a], e).events
  {
    StateShaped(cfg, run, e, a);
    if a < b {
      OneEventPerOutage(cfg, run, e, a, b - 1);
      assert LossAt(cfg, run, e, b - 1);
      var lost := LostLease(run.states[b - 1], run.events[b - 1]);
      if lost.Some? && run.states[b - 1].leases[lost.value].executor == e {
        assert LostAt(run, e, b - 1, lost.value);
      }
    }
  }

  /** A counted loss: the step and the lease it lost. */
  datatype Loss = Loss(step: nat, lease: nat)

  /** Each link is a loss of executor `e` of a lease granted after the loss before it. */
  ghost predicate Link(run: Run, e: nat, upTo: nat, chain: seq<Loss>, j: nat) {
    j < |chain| ==>
      && chain[j].step < upTo && LostAt(run, e, chain[j].step, chain[j].lease)
      && (j > 0 ==> chain[j - 1].step < chain[j].step && chain[j - 1].step < |run.states|
                    && run.states[chain[j - 1].step].nextLease <= chain[j].lease)
  }

  /** Lease `l` was outstanding at a loss of the chain before step `i`. */
  ghost predicate OutstandingBefore(run: Run, chain: seq<Loss>, i: nat, l: nat) {
    exists j :: 0 <= j < |chain| && chain[j].step < i && chain[j].step < |run.states| && l < run.states[chain[j].step].nextLease
  }

  /** A verified result at step `i`, since the chain began, was of a lease outstanding at one of its losses. */
  ghost predicate Unbroken(cfg: Config, run: Run, e: nat, upTo: nat, chain: seq<Loss>, i: nat, l: nat) {
    chain != [] && chain[0].step < i < upTo && ProvenAt(cfg, run, e, i, l) ==> OutstandingBefore(run, chain, i, l)
  }

  /** A lease lost at step `i` is in the chain, or was outstanding at an earlier loss that is. */
  ghost predicate Accounted(run: Run, e: nat, upTo: nat, chain: seq<Loss>, i: nat, l: nat) {
    i < upTo && LostAt(run, e, i, l) ==> Loss(i, l) in chain || OutstandingBefore(run, chain, i, l)
  }

  /** All counted losses of an executor, and how many of them a verified result has cleared. */
  datatype History = History(all: seq<Loss>, cleared: nat) {
    function Count(): int { |all| - cleared }
  }

  /** The result at step `i` clears what was counted: its lease was granted after the last loss counted then. */
  ghost predicate Clears(cfg: Config, run: Run, e: nat, upTo: nat, h: History, i: nat, l: nat) {
    && 0 < h.cleared <= |h.all| && h.all[h.cleared - 1].step < i < upTo && (h.cleared < |h.all| ==> i < h.all[h.cleared].step)
    && ProvenAt(cfg, run, e, i, l) && run.states[h.all[h.cleared - 1].step].nextLease <= l
  }

  /** Losses each granted after the one before, among which no loss is missing, cut where a verified result last
      cleared the count and nowhere later. */
  ghost predicate Recounts(cfg: Config, run: Run, e: nat, upTo: nat, h: History) {
    && h.cleared <= |h.all| && upTo < |run.states|
    && (forall j :: Link(run, e, upTo, h.all, j))
    && (forall i, l :: Accounted(run, e, upTo, h.all, i, l))
    && (h.cleared > 0 ==> exists i, l :: Clears(cfg, run, e, upTo, h, i, l))
    && (forall i, l :: Unbroken(cfg, run, e, upTo, h.all[h.cleared..], i, l))
  }

  // ---- There is such a history ----

  /** The horizon is the first lease granted after the last counted loss. */
  ghost predicate HorizonIs(run: Run, e: nat, i: nat, all: seq<Loss>) {
    i < |run.states| && e < |run.states[i].executors| &&
    if all == [] then run.states[i].executors[e].lossHorizon == 0
    else all[|all| - 1].step < |run.states| && run.states[i].executors[e].lossHorizon == run.states[all[|all| - 1].step].nextLease
  }

  lemma LinksStay(run: Run, e: nat, upTo: nat, next: nat, all: seq<Loss>)
    requires upTo <= next && forall j :: Link(run, e, upTo, all, j)
    ensures forall j :: Link(run, e, next, all, j)
  {
    forall j: nat ensures Link(run, e, next, all, j) { assert Link(run, e, upTo, all, j); }
  }

  lemma AccountedStays(run: Run, e: nat, upTo: nat, next: nat, all: seq<Loss>)
    requires next == upTo + 1 && forall i, l :: Accounted(run, e, upTo, all, i, l)
    requires forall l: nat :: LostAt(run, e, upTo, l) ==> OutstandingBefore(run, all, upTo, l)
    ensures forall i, l :: Accounted(run, e, next, all, i, l)
  {
    forall i: nat, l: nat ensures Accounted(run, e, next, all, i, l) { assert Accounted(run, e, upTo, all, i, l); }
  }

  lemma UnbrokenStays(cfg: Config, run: Run, e: nat, upTo: nat, next: nat, chain: seq<Loss>)
    requires next == upTo + 1 && forall i, l :: Unbroken(cfg, run, e, upTo, chain, i, l)
    requires chain != [] ==> forall l: nat :: ProvenAt(cfg, run, e, upTo, l) ==> OutstandingBefore(run, chain, upTo, l)
    ensures forall i, l :: Unbroken(cfg, run, e, next, chain, i, l)
  {
    forall i: nat, l: nat ensures Unbroken(cfg, run, e, next, chain, i, l) { assert Unbroken(cfg, run, e, upTo, chain, i, l); }
  }

  /** A step that counts no loss and clears nothing. */
  lemma HistoryStays(cfg: Config, run: Run, e: nat, upTo: nat, h: History)
    requires upTo + 1 < |run.states| && Recounts(cfg, run, e, upTo, h)
    requires forall l: nat :: LostAt(run, e, upTo, l) ==> OutstandingBefore(run, h.all, upTo, l)
    requires h.cleared < |h.all| ==> forall l: nat :: ProvenAt(cfg, run, e, upTo, l) ==> OutstandingBefore(run, h.all[h.cleared..], upTo, l)
    ensures Recounts(cfg, run, e, upTo + 1, h)
  {
    hide LostAt, ProvenAt, OutstandingBefore;
    LinksStay(run, e, upTo, upTo + 1, h.all);
    AccountedStays(run, e, upTo, upTo + 1, h.all);
    UnbrokenStays(cfg, run, e, upTo, upTo + 1, h.all[h.cleared..]);
    hide Link, Accounted, Unbroken;
    if h.cleared > 0 {
      var i: nat, l: nat :| Clears(cfg, run, e, upTo, h, i, l);
      assert Clears(cfg, run, e, upTo + 1, h, i, l);
    }
  }

  /** A result of a lease granted after the last counted loss clears the count. */
  lemma HistoryClears(cfg: Config, run: Run, e: nat, upTo: nat, h: History, l: nat)
    requires upTo + 1 < |run.states| && Recounts(cfg, run, e, upTo, h) && ProvenAt(cfg, run, e, upTo, l)
    requires h.all != [] ==> h.all[|h.all| - 1].step < |run.states| && run.states[h.all[|h.all| - 1].step].nextLease <= l
    ensures Recounts(cfg, run, e, upTo + 1, h.(cleared := |h.all|))
  {
    var r := h.(cleared := |h.all|);
    LinksStay(run, e, upTo, upTo + 1, h.all);
    forall k: nat ensures !LostAt(run, e, upTo, k) { if LostAt(run, e, upTo, k) { ProvenNotLost(cfg, run, e, upTo, l, upTo, k); } }
    AccountedStays(run, e, upTo, upTo + 1, h.all);
    if h.all != [] {
      assert Link(run, e, upTo, h.all, |h.all| - 1);
      assert Clears(cfg, run, e, upTo + 1, r, upTo, l);
    }
  }

  /** One event cannot both lose a lease and prove one. */
  lemma ProvenNotLost(cfg: Config, run: Run, e: nat, i: nat, k: nat, j: nat, l: nat)
    requires ProvenAt(cfg, run, e, i, k) && LostAt(run, e, j, l)
    ensures i != j
  {
  }

  lemma OutstandingStays(run: Run, chain: seq<Loss>, more: Loss, i: nat, l: nat)
    requires OutstandingBefore(run, chain, i, l)
    ensures OutstandingBefore(run, chain + [more], i, l)
  {
    var j :| 0 <= j < |chain| && chain[j].step < i && chain[j].step < |run.states| && l < run.states[chain[j].step].nextLease;
    assert (chain + [more])[j] == chain[j];
  }

  lemma LinksGrow(run: Run, e: nat, upTo: nat, next: nat, all: seq<Loss>, l: nat)
    requires next == upTo + 1 < |run.states| && (forall j :: Link(run, e, upTo, all, j)) && LostAt(run, e, upTo, l)
    requires all != [] ==> all[|all| - 1].step < |run.states| && run.states[all[|all| - 1].step].nextLease <= l
    ensures forall j :: Link(run, e, next, all + [Loss(upTo, l)], j)
  {
    hide LostAt;
    var longer := all + [Loss(upTo, l)];
    forall j: nat ensures Link(run, e, next, longer, j) {
      assert Link(run, e, upTo, all, j);
      if j == |all| && j > 0 { assert Link(run, e, upTo, all, j - 1); }
    }
  }

  lemma AccountedGrows(run: Run, e: nat, upTo: nat, next: nat, all: seq<Loss>, l: nat)
    requires next == upTo + 1 && (forall i, k :: Accounted(run, e, upTo, all, i, k)) && LostAt(run, e, upTo, l)
    ensures forall i, k :: Accounted(run, e, next, all + [Loss(upTo, l)], i, k)
  {
    hide OutstandingBefore;
    var longer := all + [Loss(upTo, l)];
    forall i: nat, k: nat ensures Accounted(run, e, next, longer, i, k) {
      assert Accounted(run, e, upTo, all, i, k);
      if OutstandingBefore(run, all, i, k) { OutstandingStays(run, all, Loss(upTo, l), i, k); }
    }
  }

  lemma UnbrokenGrows(cfg: Config, run: Run, e: nat, upTo: nat, next: nat, chain: seq<Loss>, l: nat)
    requires next == upTo + 1 && (forall i, k :: Unbroken(cfg, run, e, upTo, chain, i, k)) && LostAt(run, e, upTo, l)
    ensures forall i, k :: Unbroken(cfg, run, e, next, chain + [Loss(upTo, l)], i, k)
  {
    hide OutstandingBefore, LostAt, ProvenAt;
    var longer := chain + [Loss(upTo, l)];
    forall i: nat, k: nat ensures Unbroken(cfg, run, e, next, longer, i, k) {
      assert Unbroken(cfg, run, e, upTo, chain, i, k);
      if ProvenAt(cfg, run, e, i, k) { ProvenNotLost(cfg, run, e, i, k, upTo, l); }
      if OutstandingBefore(run, chain, i, k) { OutstandingStays(run, chain, Loss(upTo, l), i, k); }
    }
  }

  /** The loss of a lease granted after the last counted loss is counted. */
  lemma HistoryGrows(cfg: Config, run: Run, e: nat, upTo: nat, h: History, l: nat)
    requires upTo + 1 < |run.states| && Recounts(cfg, run, e, upTo, h) && LostAt(run, e, upTo, l)
    requires h.all != [] ==> h.all[|h.all| - 1].step < |run.states| && run.states[h.all[|h.all| - 1].step].nextLease <= l
    ensures Recounts(cfg, run, e, upTo + 1, h.(all := h.all + [Loss(upTo, l)]))
  {
    hide Link, Accounted, Unbroken, LostAt, ProvenAt;
    var r := h.(all := h.all + [Loss(upTo, l)]);
    LinksGrow(run, e, upTo, upTo + 1, h.all, l);
    AccountedGrows(run, e, upTo, upTo + 1, h.all, l);
    UnbrokenGrows(cfg, run, e, upTo, upTo + 1, h.all[h.cleared..], l);
    assert r.all[h.cleared..] == h.all[h.cleared..] + [Loss(upTo, l)];
    if h.cleared > 0 {
      var i: nat, k: nat :| Clears(cfg, run, e, upTo, h, i, k);
      assert Clears(cfg, run, e, upTo + 1, r, i, k);
    }
  }

  lemma LastOutstanding(run: Run, e: nat, upTo: nat, h: History, l: nat)
    requires upTo < |run.states| && (forall j :: Link(run, e, upTo, h.all, j)) && h.cleared <= |h.all|
    requires HorizonIs(run, e, upTo, h.all) && l < run.states[upTo].executors[e].lossHorizon
    ensures OutstandingBefore(run, h.all, upTo, l)
    ensures h.cleared < |h.all| ==> OutstandingBefore(run, h.all[h.cleared..], upTo, l)
  {
    var last := |h.all| - 1;
    assert Link(run, e, upTo, h.all, last);
    if h.cleared < |h.all| {
      var chain := h.all[h.cleared..];
      assert chain[last - h.cleared] == h.all[last];
    }
  }

  lemma NextHistory(cfg: Config, run: Run, e: nat, i: nat, before: History) returns (h: History)
    requires LossRun(cfg, run, e) && !cfg.neverQuarantinedForLoss[e] && i + 1 < |run.states| && Shaped(cfg, run.states[i])
    requires Recounts(cfg, run, e, i, before) && before.Count() == LossesOf(run.states[i], e).events && HorizonIs(run, e, i, before.all)
    ensures Shaped(cfg, run.states[i + 1])
    ensures Recounts(cfg, run, e, i + 1, h) && h.Count() == LossesOf(run.states[i + 1], e).events && HorizonIs(run, e, i + 1, h.all)
  {
    assert LossAt(cfg, run, e, i);
    var s, event := run.states[i], run.events[i];
    var lost, proven := LostLease(s, event), ProvenLease(cfg, s, event);
    var horizon := LossesOf(s, e).horizon;
    hide Recounts;
    if lost.Some? && LostAt(run, e, i, lost.value) && lost.value >= horizon {
      HistoryGrows(cfg, run, e, i, before, lost.value);
      h := before.(all := before.all + [Loss(i, lost.value)]);
    } else if proven.Some? && ProvenAt(cfg, run, e, i, proven.value) && proven.value >= horizon {
      HistoryClears(cfg, run, e, i, before, proven.value);
      h := before.(cleared := |before.all|);
    } else {
      h := before;
      Uncounted(cfg, run, e, i, before);
    }
  }

  lemma Uncounted(cfg: Config, run: Run, e: nat, i: nat, h: History)
    requires i + 1 < |run.states| && Recounts(cfg, run, e, i, h) && HorizonIs(run, e, i, h.all)
    requires forall l: nat :: LostAt(run, e, i, l) || ProvenAt(cfg, run, e, i, l) ==> l < run.states[i].executors[e].lossHorizon
    ensures Recounts(cfg, run, e, i + 1, h)
  {
    hide LostAt, ProvenAt, OutstandingBefore;
    forall l: nat | l < run.states[i].executors[e].lossHorizon
      ensures OutstandingBefore(run, h.all, i, l)
      ensures h.cleared < |h.all| ==> OutstandingBefore(run, h.all[h.cleared..], i, l)
    {
      LastOutstanding(run, e, i, h, l);
    }
    HistoryStays(cfg, run, e, i, h);
  }

  lemma {:induction false} CountHasHistory(cfg: Config, run: Run, e: nat, i: nat) returns (h: History)
    requires LossRun(cfg, run, e) && !cfg.neverQuarantinedForLoss[e] && i < |run.states|
    ensures Shaped(cfg, run.states[i])
    ensures Recounts(cfg, run, e, i, h) && h.Count() == LossesOf(run.states[i], e).events && HorizonIs(run, e, i, h.all)
  {
    if i == 0 {
      h := History([], 0);
    } else {
      var before := CountHasHistory(cfg, run, e, i - 1);
      h := NextHistory(cfg, run, e, i - 1, before);
    }
  }

  // ---- And only one ----

  lemma {:induction false} LeasesOnlyGrow(cfg: Config, run: Run, e: nat, a: nat, b: nat)
    requires LossRun(cfg, run, e) && a <= b < |run.states|
    ensures run.states[a].nextLease <= run.states[b].nextLease
  {
    if a < b {
      LeasesOnlyGrow(cfg, run, e, a, b - 1);
      assert LossAt(cfg, run, e, b - 1);
      assert LossesOf(run.states[b], e).next >= LossesOf(run.states[b - 1], e).next;
    }
  }

  /** Of two losses in the chain the later was granted after the earlier. */
  lemma {:induction false} ChainInOrder(cfg: Config, run: Run, e: nat, upTo: nat, chain: seq<Loss>, x: nat, y: nat)
    requires LossRun(cfg, run, e) && upTo < |run.states| && (forall j :: Link(run, e, upTo, chain, j)) && x < y < |chain|
    ensures chain[x].step < chain[y].step < |run.states|
    ensures run.states[chain[x].step].nextLease <= chain[y].lease
    ensures run.states[chain[x].step].nextLease <= run.states[chain[y].step].nextLease
  {
    assert Link(run, e, upTo, chain, y);
    if x < y - 1 { ChainInOrder(cfg, run, e, upTo, chain, x, y - 1); }
    LeasesOnlyGrow(cfg, run, e, chain[x].step, chain[y - 1].step);
    LeasesOnlyGrow(cfg, run, e, chain[x].step, chain[y].step);
  }

  ghost predicate AllCounted(run: Run, e: nat, upTo: nat, all: seq<Loss>) {
    && upTo < |run.states|
    && (forall j :: Link(run, e, upTo, all, j)) && (forall i, l :: Accounted(run, e, upTo, all, i, l))
  }

  /** Where two such chains part, neither goes on with a loss that the other leaves out. */
  lemma NoneLeftOut(cfg: Config, run: Run, e: nat, upTo: nat, a: seq<Loss>, b: seq<Loss>, m: nat)
    requires LossRun(cfg, run, e) && AllCounted(run, e, upTo, a) && AllCounted(run, e, upTo, b)
    requires m < |b| && m <= |a| && a[..m] == b[..m]
    ensures m < |a| && a[m].step <= b[m].step
  {
    var i, l := b[m].step, b[m].lease;
    assert Link(run, e, upTo, b, m) && Accounted(run, e, upTo, a, i, l);
    var x :| 0 <= x < |a| && (a[x] == b[m] || (a[x].step < i && a[x].step < |run.states| && l < run.states[a[x].step].nextLease));
    if x < m {
      assert a[x] == a[..m][x] == b[..m][x] == b[x];
      ChainInOrder(cfg, run, e, upTo, b, x, m);
    } else if x > m {
      ChainInOrder(cfg, run, e, upTo, a, m, x);
    }
  }

  lemma {:induction false} SamePrefix(cfg: Config, run: Run, e: nat, upTo: nat, a: seq<Loss>, b: seq<Loss>, n: nat)
    requires LossRun(cfg, run, e) && AllCounted(run, e, upTo, a) && AllCounted(run, e, upTo, b) && n <= |a|
    ensures n <= |b| && a[..n] == b[..n]
  {
    if n > 0 {
      var m := n - 1;
      SamePrefix(cfg, run, e, upTo, a, b, m);
      NoneLeftOut(cfg, run, e, upTo, b, a, m);
      NoneLeftOut(cfg, run, e, upTo, a, b, m);
      assert Link(run, e, upTo, a, m) && Link(run, e, upTo, b, m);
      assert a[..n] == a[..m] + [a[m]] && b[..n] == b[..m] + [b[m]];
    }
  }

  /** Whatever was outstanding before a step between two losses of the chain was so at the earlier of them. */
  lemma OutstandingAtLast(cfg: Config, run: Run, e: nat, upTo: nat, all: seq<Loss>, from: nat, last: nat, i: nat, l: nat)
    requires LossRun(cfg, run, e) && upTo < |run.states| && forall j :: Link(run, e, upTo, all, j)
    requires from <= last < |all| && OutstandingBefore(run, all[from..], i, l)
    requires last + 1 < |all| ==> i < all[last + 1].step
    ensures all[last].step < |run.states| && l < run.states[all[last].step].nextLease
  {
    var chain := all[from..];
    var j :| 0 <= j < |chain| && chain[j].step < i && chain[j].step < |run.states| && l < run.states[chain[j].step].nextLease;
    var x := from + j;
    assert chain[j] == all[x];
    if x < last {
      ChainInOrder(cfg, run, e, upTo, all, x, last);
    } else if x > last + 1 {
      ChainInOrder(cfg, run, e, upTo, all, last + 1, x);
    }
  }

  /** No result clears the count where the other history goes on unbroken. */
  lemma NoLaterClearing(cfg: Config, run: Run, e: nat, upTo: nat, a: History, b: History)
    requires LossRun(cfg, run, e) && Recounts(cfg, run, e, upTo, a) && Recounts(cfg, run, e, upTo, b) && a.all == b.all
    ensures b.cleared <= a.cleared
  {
    hide OutstandingBefore, Link, Accounted, LossRun, ProvenAt;
    if a.cleared < b.cleared {
      var i: nat, l: nat :| Clears(cfg, run, e, upTo, b, i, l);
      var chain, last := a.all[a.cleared..], b.cleared - 1;
      assert chain[0] == a.all[a.cleared];
      if a.cleared < last { ChainInOrder(cfg, run, e, upTo, a.all, a.cleared, last); }
      assert Unbroken(cfg, run, e, upTo, chain, i, l);
      OutstandingAtLast(cfg, run, e, upTo, a.all, a.cleared, last, i, l);
    }
  }

  /** Only one history recounts the losses of an executor. */
  lemma HistoryIsUnique(cfg: Config, run: Run, e: nat, upTo: nat, a: History, b: History)
    requires LossRun(cfg, run, e) && Recounts(cfg, run, e, upTo, a) && Recounts(cfg, run, e, upTo, b)
    ensures a == b
  {
    SamePrefix(cfg, run, e, upTo, a.all, b.all, |a.all|);
    SamePrefix(cfg, run, e, upTo, b.all, a.all, |b.all|);
    assert a.all[..|a.all|] == a.all && b.all[..|b.all|] == b.all;
    NoLaterClearing(cfg, run, e, upTo, a, b);
    NoLaterClearing(cfg, run, e, upTo, b, a);
  }

  // ---- What quarantines ----

  /** So many losses, none cleared, that the policy gives the executor up. */
  ghost predicate ReachesLimit(cfg: Config, run: Run, e: nat, i: nat, h: History)
    requires e < |cfg.neverQuarantinedForLoss|
  {
    !cfg.neverQuarantinedForLoss[e] && Recounts(cfg, run, e, i, h) && h.Count() > 0 && h.Count() >= cfg.quarantineAfterLossEvents
  }

  lemma {:induction false} LimitQuarantines(cfg: Config, run: Run, e: nat, i: nat, k: nat)
    requires LossRun(cfg, run, e) && i <= k < |run.states|
    ensures Shaped(cfg, run.states[i]) && Shaped(cfg, run.states[k])
    ensures LossesOf(run.states[i], e).events > 0 && LossesOf(run.states[i], e).events >= cfg.quarantineAfterLossEvents ==>
              LossesOf(run.states[k], e).quarantined
    ensures i < k && CorruptAt(cfg, run, e, i) ==> LossesOf(run.states[k], e).quarantined
    decreases k
  {
    if k > 0 {
      assert LossAt(cfg, run, e, k - 1);
      LimitQuarantines(cfg, run, e, if i < k then i else k - 1, k - 1);
    }
  }

  lemma CauseQuarantines(cfg: Config, run: Run, e: nat, i: nat, j: nat, h: History)
    requires LossRun(cfg, run, e) && j <= i < |run.states| && ReachesLimit(cfg, run, e, j, h)
    ensures Shaped(cfg, run.states[i]) && LossesOf(run.states[i], e).quarantined
  {
    hide LossRun, Recounts;
    var counted := CountHasHistory(cfg, run, e, j);
    HistoryIsUnique(cfg, run, e, j, h, counted);
    LimitQuarantines(cfg, run, e, j, i);
  }

  /** The step that quarantines is an invalid result or a loss that reaches the limit. */
  lemma QuarantineStep(cfg: Config, run: Run, e: nat, i: nat) returns (h: History)
    requires LossRun(cfg, run, e) && i + 1 < |run.states| && Shaped(cfg, run.states[i]) && Shaped(cfg, run.states[i + 1])
    requires !LossesOf(run.states[i], e).quarantined && LossesOf(run.states[i + 1], e).quarantined && !CorruptAt(cfg, run, e, i)
    ensures ReachesLimit(cfg, run, e, i + 1, h)
  {
    assert LossAt(cfg, run, e, i);
    hide LossRun, Recounts;
    h := CountHasHistory(cfg, run, e, i + 1);
  }

  /** An executor is quarantined if and only if it brought an invalid result or, unless its policy is `never`,
      reached `quarantineAfterLossEvents` losses. */
  lemma {:induction false} QuarantineHasCause(cfg: Config, run: Run, e: nat, i: nat)
    requires LossRun(cfg, run, e) && i < |run.states|
    ensures Shaped(cfg, run.states[i])
    ensures LossesOf(run.states[i], e).quarantined <==>
              || (exists j: nat :: j < i && CorruptAt(cfg, run, e, j))
              || (exists j: nat, h :: j <= i && ReachesLimit(cfg, run, e, j, h))
  {
    hide ReachesLimit, CorruptAt;
    StateShaped(cfg, run, e, i);
    if j: nat :| j < i && CorruptAt(cfg, run, e, j) { LimitQuarantines(cfg, run, e, j, i); }
    if j: nat, h :| j <= i && ReachesLimit(cfg, run, e, j, h) { CauseQuarantines(cfg, run, e, i, j, h); }
    if i > 0 && LossesOf(run.states[i], e).quarantined {
      QuarantineHasCause(cfg, run, e, i - 1);
      if !LossesOf(run.states[i - 1], e).quarantined && !CorruptAt(cfg, run, e, i - 1) {
        var h := QuarantineStep(cfg, run, e, i - 1);
      }
    }
  }

  // ---- The same for any run of the scheduler ----

  /** In every run: losing leases that were outstanding together adds at most one loss event. */
  lemma OutageCountsOnce(cfg: Config, run: Run, e: nat, a: nat, b: nat)
    requires IsRun(cfg, run) && e < cfg.Executors() && a <= b < |run.states|
    requires forall i: nat, l: nat :: a <= i < b && LostAt(run, e, i, l) ==> l < run.states[a].nextLease
    ensures Shaped(cfg, run.states[a]) && Shaped(cfg, run.states[b])
    ensures run.states[b].executors[e].lossEvents <= run.states[a].executors[e].lossEvents + 1
  {
    RunHasLosses(cfg, run, e);
    OneEventPerOutage(cfg, run, e, a, b);
  }

  /** In every run: exactly one history recounts the losses of an executor, and the count of loss events is what
      it says; for an executor whose policy is `never` none is counted. */
  lemma LossEventsAreChain(cfg: Config, run: Run, e: nat, i: nat) returns (h: History)
    requires IsRun(cfg, run) && e < cfg.Executors() && i < |run.states|
    ensures Shaped(cfg, run.states[i]) && run.states[i].executors[e].lossEvents == h.Count()
    ensures if cfg.neverQuarantinedForLoss[e] then h.Count() == 0 else forall other :: Recounts(cfg, run, e, i, other) <==> other == h
  {
    RunHasLosses(cfg, run, e);
    if cfg.neverQuarantinedForLoss[e] {
      NeverCounted(cfg, run, e, i);
      return History([], 0);
    }
    h := CountHasHistory(cfg, run, e, i);
    forall other | Recounts(cfg, run, e, i, other) ensures other == h { HistoryIsUnique(cfg, run, e, i, other, h); }
  }

  lemma {:induction false} NeverCounted(cfg: Config, run: Run, e: nat, i: nat)
    requires LossRun(cfg, run, e) && i < |run.states| && cfg.neverQuarantinedForLoss[e]
    ensures Shaped(cfg, run.states[i]) && LossesOf(run.states[i], e).events == 0
  {
    if i > 0 {
      NeverCounted(cfg, run, e, i - 1);
      assert LossAt(cfg, run, e, i - 1);
    }
  }

  /** In every run: an executor is quarantined exactly for an invalid result or for losses that reach the limit. */
  lemma QuarantinedExactly(cfg: Config, run: Run, e: nat, i: nat)
    requires IsRun(cfg, run) && e < cfg.Executors() && i < |run.states|
    ensures Shaped(cfg, run.states[i])
    ensures run.states[i].executors[e].quarantined <==>
              || (exists j: nat :: j < i && CorruptAt(cfg, run, e, j))
              || (exists j: nat, h :: j <= i && ReachesLimit(cfg, run, e, j, h))
  {
    RunHasLosses(cfg, run, e);
    QuarantineHasCause(cfg, run, e, i);
  }

  /** In every run: an executor whose policy is `never` is quarantined exactly when it brought an invalid result. */
  lemma NeverMeansNever(cfg: Config, run: Run, e: nat, i: nat)
    requires IsRun(cfg, run) && e < cfg.Executors() && i < |run.states| && cfg.neverQuarantinedForLoss[e]
    ensures Shaped(cfg, run.states[i])
    ensures run.states[i].executors[e].quarantined <==> exists j: nat :: j < i && CorruptAt(cfg, run, e, j)
  {
    QuarantinedExactly(cfg, run, e, i);
  }
}
