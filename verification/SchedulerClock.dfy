/**
 Lease times and back-off over whole runs: what the history of grants, heartbeats, refusals and results says they are
 (scheduler_run.cpp, scheduler_dispatch.cpp).
 */
module SchedulerClock {
  import opened ResultVerification
  import opened SchedulerState
  import opened SchedulerSteps
  import opened SchedulerInvariant
  import opened SchedulerResume
  import opened SchedulerRuns
  import opened SchedulerHistory
  import opened SchedulerFailures
  import opened SchedulerTurns

  // ---- Lease times ----

  /** Step `i` grants lease `l`. */
  ghost predicate GrantedAt(run: Run, i: nat, l: nat) {
    i < |run.events| && i < |run.states| && Grants(run.states[i], run.events[i], l)
  }

  /** Step `i` is a heartbeat of lease `l` while that is outstanding. */
  ghost predicate HeardAt(run: Run, i: nat, l: nat) {
    && i < |run.events| && i < |run.states| && Counts(run.states[i], run.events[i])
    && run.events[i].Heartbeat? && run.events[i].lease == l
  }

  ghost predicate RenewedAt(run: Run, i: nat, l: nat) {
    GrantedAt(run, i, l) || HeardAt(run, i, l)
  }

  function TimeOf(event: Event): int {
    match event
    case Grant(_, _, _, now) => now
    case Heartbeat(_, now) => now
    case Rejected(_, now) => now
    case LeaseEnded(_, now) => now
    case _ => 0
  }

  /** Lease `l` of step `i` was granted at step `g` and last renewed at step `k`: its record says so, it expires its
      task's lease length after `k`, and its deadline is the attempt limit after `g`. */
  ghost predicate Timed(cfg: Config, run: Run, i: nat, l: nat, g: nat, k: nat) {
    && g <= k < i < |run.states| && i <= |run.events| && l in run.states[i].leases
    && GrantedAt(run, g, l) && RenewedAt(run, k, l) && (forall j :: k < j < i ==> !RenewedAt(run, j, l))
    && var Grant(t, e, speculative, now) := run.events[g];
       && t < cfg.Tasks() && t < |cfg.leaseLength| && t < |cfg.attemptLimit|
       && run.states[i].leases[l] == Lease(t, e, Starts(run, g, t) + 1, cfg.leaseLength[t], now,
                                           TimeOf(run.events[k]) + cfg.leaseLength[t], now + cfg.attemptLimit[t], speculative)
  }

  ghost predicate LeaseStepAt(cfg: Config, run: Run, i: nat, l: nat) {
    && i + 1 < |run.states| && i < |run.events| && Shaped(cfg, run.states[i])
    && (run.states[i].failure.None? ==> LeaseStep(cfg, run.states[i], run.events[i], run.states[i + 1], l))
    && (run.states[i].failure.Some? ==> run.states[i + 1] == run.states[i])
    && (run.events[i].Grant? && run.states[i].failure.None? ==> run.events[i].task < cfg.Tasks())
    && run.states[i].nextLease <= run.states[i + 1].nextLease
    && (GrantedAt(run, i, l) ==> l < run.states[i + 1].nextLease)
  }

  lemma LeasesAt(cfg: Config, run: Run, i: nat, l: nat)
    requires IsRun(cfg, run) && i < |run.events|
    ensures LeaseStepAt(cfg, run, i, l)
    ensures run.states[i].failure.None? ==> run.states[i].nextLease !in run.states[i].leases
  {
    InvThroughout(cfg, run, i);
    assert StepAt(cfg, run, i);
    if run.states[i].failure.None? {
      StepOnLeases(cfg, run.states[i], run.events[i], l);
      assert LeaseKnown(run.states[i], run.states[i].nextLease);
      NextLeaseGrows(cfg, run.states[i], run.events[i]);
    }
  }

  lemma NextLeaseGrows(cfg: Config, s: State, event: Event)
    requires Inv(cfg, s, {}) && s.failure.None? && Enabled(cfg, s, event)
    ensures var r := Step(cfg, s, event);
            r.nextLease == s.nextLease + (if event.Grant? then 1 else 0)
  {
    if event.Grant? {
      hide Inv;
    } else if FailsAttempt(cfg, s, event) {
      var p, q := FailingStep(cfg, s, event);
      hide Step, Inv;
    } else if EndsLease(s, event) {
      var p := EndingStep(cfg, s, event);
      hide Step, Inv;
    } else {
      IdleStep(cfg, s, event);
      hide Step, Inv;
    }
  }

  /** At every point of every run, each outstanding lease has the times its history gives it. */
  lemma {:induction false} LeaseTimes(cfg: Config, run: Run, i: nat, l: nat) returns (g: nat, k: nat)
    requires IsRun(cfg, run) && i < |run.states| && l in run.states[i].leases
    ensures Timed(cfg, run, i, l, g, k)
  {
    hide IsRun;
    RunLength(cfg, run);
    if i == 0 {
      NoLeasesYet(cfg, run);
    }
    var p := i - 1;
    LeasesAt(cfg, run, p, l);
    if l in run.states[p].leases {
      g, k := LeaseTimes(cfg, run, p, l);
      hide IsRun, Shaped;
      if HeardAt(run, p, l) { k := p; }
    } else {
      g, k := p, p;
      AttemptsAreCounted(cfg, run, p, run.events[p].task);
      hide IsRun, Shaped;
    }
  }

  lemma NoLeasesYet(cfg: Config, run: Run)
    requires IsRun(cfg, run)
    ensures run.states[0].leases == map[] && run.states[0].nextLease == 1
  {
    hide StepAt;
    var s :| Untouched(cfg, s) && run.states[0] == Start(cfg, s);
  }

  /** By its history lease `l` was last renewed its length or longer before `now`, or granted its attempt limit before. */
  ghost predicate Overdue(cfg: Config, run: Run, i: nat, l: nat, now: int) {
    exists g, k :: Timed(cfg, run, i, l, g, k) && PastDue(cfg, run, g, k, now)
  }

  ghost predicate PastDue(cfg: Config, run: Run, g: nat, k: nat, now: int) {
    && g < |run.events| && k < |run.events| && run.events[g].Grant?
    && run.events[g].task < |cfg.leaseLength| && run.events[g].task < |cfg.attemptLimit|
    && (now - TimeOf(run.events[k]) >= cfg.leaseLength[run.events[g].task]
        || now - TimeOf(run.events[g]) >= cfg.attemptLimit[run.events[g].task])
  }

  lemma LateIsOverdue(cfg: Config, run: Run, i: nat, l: nat, now: int)
    requires IsRun(cfg, run) && i < |run.states| && l in run.states[i].leases
    ensures Late(run.states[i].leases[l], now) <==> Overdue(cfg, run, i, l, now)
    ensures Ended(run.states[i].leases[l], now) <==> Overdue(cfg, run, i, l, now)
  {
    var g, k := LeaseTimes(cfg, run, i, l);
    hide IsRun, Grants, RenewedAt;
    assert PastDue(cfg, run, g, k, now) <==> Late(run.states[i].leases[l], now);
  }

  /** Coming to the end of its time takes an outstanding lease away exactly when its history says it is overdue. */
  lemma EndedIfOverdue(cfg: Config, run: Run, i: nat, l: nat, now: int)
    requires IsRun(cfg, run) && i < |run.events| && run.events[i] == LeaseEnded(l, now)
    requires run.states[i].failure.None? && l in run.states[i].leases
    ensures l !in run.states[i + 1].leases <==> Overdue(cfg, run, i, l, now)
  {
    LateIsOverdue(cfg, run, i, l, now);
    LeasesAt(cfg, run, i, l);
    InvThroughout(cfg, run, i);
    assert StepAt(cfg, run, i);
    hide IsRun, Overdue, Inv, LeaseViews;
    StepOnQuarantine(cfg, run.states[i], run.events[i], run.states[i].leases[l].executor);
    hide Step;
  }

  // ---- Back-off ----

  ghost predicate RefusedAt(run: Run, i: nat, e: nat) {
    && i < |run.events| && i < |run.states| && Counts(run.states[i], run.events[i])
    && run.events[i].Rejected? && run.states[i].leases[run.events[i].lease].executor == e
  }

  ghost predicate ReturnedAt(run: Run, i: nat, e: nat) {
    && i < |run.events| && i < |run.states| && Counts(run.states[i], run.events[i])
    && run.events[i].Finished? && run.states[i].leases[run.events[i].lease].executor == e
  }

  /** Executor `e` refused a lease at step `j`, and has neither refused nor returned one since. */
  ghost predicate Refusing(run: Run, i: nat, e: nat, j: nat) {
    j < i && RefusedAt(run, j, e) && forall k :: j < k < i ==> !RefusedAt(run, k, e) && !ReturnedAt(run, k, e)
  }

  ghost predicate BackoffStep(cfg: Config, s: State, event: Event, r: State, e: nat) {
    && |r.executors| == |s.executors|
    && (e < |s.executors| ==>
          var mine := Counts(s, event) && s.leases[event.lease].executor == e;
          r.executors[e].declinedUntil ==
          if mine && event.Rejected? then event.now + cfg.rejectionBackoff
          else if mine && event.Finished? then 0
          else s.executors[e].declinedUntil)
  }

  lemma LostKeepsExecutors(cfg: Config, s: State, t: nat, x: nat)
    requires Shaped(cfg, s) && t < cfg.Tasks()
    ensures AttemptLost(cfg, s, t, x).executors == s.executors
  {
  }

  lemma BlamedKeepsBackoff(cfg: Config, s: State, t: nat, x: nat, e: nat)
    requires Shaped(cfg, s) && t < cfg.Tasks() && x < cfg.Executors() && e < cfg.Executors()
    ensures AttemptLost(cfg, Quarantine(cfg, CountInvalid(s), x), t, x).executors[e].declinedUntil == s.executors[e].declinedUntil
  {
    QuarantineIs(cfg, CountInvalid(s), x);
    LostKeepsExecutors(cfg, Quarantine(cfg, CountInvalid(s), x), t, x);
    hide Quarantine, AttemptLost, SameCounts, LeasesOn;
  }

  lemma LostKeepsBackoff(cfg: Config, s: State, l: nat, t: nat, x: nat, e: nat)
    requires Shaped(cfg, s) && t < cfg.Tasks() && x < cfg.Executors() && e < cfg.Executors()
    ensures AttemptLost(cfg, CountLoss(cfg, s, l, x), t, x).executors[e].declinedUntil == s.executors[e].declinedUntil
  {
    CountLossIs(cfg, s, l, x);
    LostKeepsExecutors(cfg, CountLoss(cfg, s, l, x), t, x);
    hide CountLoss, AttemptLost, SameCounts, LeasesOn;
  }

  lemma SuccessKeepsBackoff(cfg: Config, s: State, l: nat, lease: Lease, output: AttemptOutput, throws: bool, e: nat)
    requires Shaped(cfg, s) && lease.task < cfg.Tasks() && lease.executor < cfg.Executors() && e < cfg.Executors()
    ensures VerifiedSuccess(cfg, s, l, lease, output, throws).executors[e].declinedUntil == s.executors[e].declinedUntil
  {
  }

  lemma FinishedKeepsBackoff(cfg: Config, s: State, l: nat, output: AttemptOutput, throws: bool, e: nat)
    requires Shaped(cfg, s) && l in s.leases && e < cfg.Executors()
    ensures OnFinished(cfg, s, l, output, throws).executors[e].declinedUntil == ReleaseFinished(cfg, s, l).executors[e].declinedUntil
  {
    hide AttemptLost, Quarantine, VerifiedSuccess, ReleaseFinished, VerdictOf;
    var p, lease := ReleaseFinished(cfg, s, l), s.leases[l];
    BlamedKeepsBackoff(cfg, p, lease.task, lease.executor, e);
    SuccessKeepsBackoff(cfg, p, l, lease, output, throws, e);
    LostKeepsExecutors(cfg, p, lease.task, lease.executor);
  }

  lemma FinishedOnBackoff(cfg: Config, s: State, event: Event, e: nat)
    requires Shaped(cfg, s) && s.failure.None? && event.Finished? && event.lease in s.leases && e < cfg.Executors()
    ensures BackoffStep(cfg, s, event, OnFinished(cfg, s, event.lease, event.output, event.sinkThrows), e)
  {
    FinishedKeepsBackoff(cfg, s, event.lease, event.output, event.sinkThrows, e);
    hide OnFinished;
  }

  lemma FailedOnBackoff(cfg: Config, s: State, event: Event, e: nat)
    requires Shaped(cfg, s) && s.failure.None? && event.AttemptFailed? && event.lease in s.leases && e < cfg.Executors()
    ensures BackoffStep(cfg, s, event, OnFailed(cfg, s, event.lease, event.kind), e)
  {
    var l, lease := event.lease, s.leases[event.lease];
    BlamedKeepsBackoff(cfg, Release(cfg, s, l), lease.task, lease.executor, e);
    LostKeepsBackoff(cfg, Release(cfg, s, l), l, lease.task, lease.executor, e);
    hide AttemptLost, Quarantine, CountLoss;
  }

  lemma LateOnBackoff(cfg: Config, s: State, event: Event, e: nat)
    requires Shaped(cfg, s) && s.failure.None? && event.LeaseEnded? && event.lease in s.leases && e < cfg.Executors()
    ensures BackoffStep(cfg, s, event, OnLeaseEnded(cfg, s, event.lease, event.now), e)
  {
    var l, lease := event.lease, s.leases[event.lease];
    LostKeepsBackoff(cfg, CountEnding(Release(cfg, s, l), lease, event.now), l, lease.task, lease.executor, e);
    hide AttemptLost, CountLoss;
  }

  lemma StepOnBackoff(cfg: Config, s: State, event: Event, e: nat)
    requires Shaped(cfg, s) && s.failure.None? && Enabled(cfg, s, event) && e < cfg.Executors()
    ensures BackoffStep(cfg, s, event, Step(cfg, s, event), e)
  {
    hide OnFinished, OnFailed, OnLeaseEnded;
    if !Counts(s, event) {
      if !event.Grant? { IdleStep(cfg, s, event); }
    } else if event.Finished? {
      FinishedOnBackoff(cfg, s, event, e);
    } else if event.AttemptFailed? {
      FailedOnBackoff(cfg, s, event, e);
    } else if event.LeaseEnded? {
      LateOnBackoff(cfg, s, event, e);
    }
  }

  lemma NobodyDeclinedYet(cfg: Config, run: Run, e: nat)
    requires IsRun(cfg, run) && e < cfg.Executors()
    ensures e < |run.states[0].executors| && run.states[0].executors[e].declinedUntil == 0
  {
    hide StepAt;
    var s :| Untouched(cfg, s) && run.states[0] == Start(cfg, s);
  }

  lemma BackoffAt(cfg: Config, run: Run, i: nat, e: nat)
    requires IsRun(cfg, run) && i < |run.events| && e < cfg.Executors()
    ensures e < |run.states[i].executors| == |run.states[i + 1].executors|
    ensures run.states[i].failure.None? ==> BackoffStep(cfg, run.states[i], run.events[i], run.states[i + 1], e)
    ensures run.states[i].failure.Some? ==> run.states[i + 1] == run.states[i]
  {
    InvThroughout(cfg, run, i);
    assert StepAt(cfg, run, i);
    if run.states[i].failure.None? { StepOnBackoff(cfg, run.states[i], run.events[i], e); }
  }

  /** The executor backs off the configured time after the last lease it refused, unless it returned one since. */
  ghost predicate BackoffIsRight(cfg: Config, run: Run, i: nat, e: nat) {
    && i < |run.states| && i <= |run.events| && e < |run.states[i].executors|
    && var until := run.states[i].executors[e].declinedUntil;
       || (exists j: nat :: Refusing(run, i, e, j) && until == TimeOf(run.events[j]) + cfg.rejectionBackoff)
       || (until == 0 && forall j: nat :: !Refusing(run, i, e, j))
  }

  lemma {:induction false} BackoffIs(cfg: Config, run: Run, i: nat, e: nat)
    requires IsRun(cfg, run) && i < |run.states| && e < cfg.Executors()
    ensures BackoffIsRight(cfg, run, i, e)
  {
    hide IsRun;
    RunLength(cfg, run);
    if i == 0 {
      NobodyDeclinedYet(cfg, run, e);
    } else {
      hide BackoffIsRight, BackoffStep;
      BackoffIs(cfg, run, i - 1, e);
      BackoffAt(cfg, run, i - 1, e);
      BackoffNext(cfg, run, i - 1, i, e);
    }
  }

  lemma BackoffNext(cfg: Config, run: Run, p: nat, i: nat, e: nat)
    requires i == p + 1 && p < |run.events| && |run.states| == |run.events| + 1
    requires e < |run.states[p].executors| == |run.states[i].executors|
    requires run.states[p].failure.None? ==> BackoffStep(cfg, run.states[p], run.events[p], run.states[i], e)
    requires run.states[p].failure.Some? ==> run.states[i] == run.states[p]
    requires BackoffIsRight(cfg, run, p, e)
    ensures BackoffIsRight(cfg, run, i, e)
  {
    if RefusedAt(run, p, e) {
      assert Refusing(run, i, e, p);
    } else if ReturnedAt(run, p, e) {
      forall j: nat ensures !Refusing(run, i, e, j) {}
    } else {
      forall j: nat ensures Refusing(run, i, e, j) <==> Refusing(run, p, e, j) {}
    }
  }

  // ---- Sweeps ----

  ghost predicate EndsOverdue(cfg: Config, run: Run, k: nat, now: int) {
    k < |run.events| && exists l: nat :: run.events[k] == LeaseEnded(l, now) && Overdue(cfg, run, k, l, now)
  }

  /** A sweep ends only leases that their history says are overdue, and, unless the build fails, leaves none. */
  lemma SweepIsExact(cfg: Config, run: Run, a: nat, b: nat, now: int)
    requires IsRun(cfg, run) && Swept(run, a, b, now)
    ensures forall k :: a <= k < b ==> EndsOverdue(cfg, run, k, now)
    ensures run.states[b].failure.None? ==> forall l :: l in run.states[b].leases ==> !Overdue(cfg, run, b, l, now)
  {
    RunLength(cfg, run);
    hide IsRun, Overdue, Ended;
    forall k: nat | a <= k < b ensures EndsOverdue(cfg, run, k, now) {
      assert EndsAt(run, k, now);
      LateIsOverdue(cfg, run, k, run.events[k].lease, now);
    }
    if run.states[b].failure.None? {
      forall l | l in run.states[b].leases ensures !Overdue(cfg, run, b, l, now) { LateIsOverdue(cfg, run, b, l, now); }
    }
  }
}
