/** The retry limit with speculative duplicates: exactly which events let a task escape it. */
module SchedulerLimits {
  import opened Basics
  import opened ResultVerification
  import opened SchedulerState
  import opened SchedulerSteps
  import opened SchedulerInvariant
  import opened SchedulerResume
  import opened SchedulerRuns
  import opened SchedulerAttempts
  import opened SchedulerLosses

  /** The documented limit: a task with no attempt in flight has failed fewer than `maxAttempts` times. */
  ghost predicate WithinLimit(cfg: Config, s: State, t: nat) {
    t < |s.tasks| && t < |cfg.maxAttempts| && s.tasks[t].phase != Committed && s.tasks[t].active == {} ==>
      s.tasks[t].failedAttempts < cfg.maxAttempts[t]
  }

  ghost predicate AllWithinLimit(cfg: Config, s: State) {
    forall t :: WithinLimit(cfg, s, t)
  }

  predicate UsedUp(cfg: Config, s: State, t: nat)
    requires Shaped(cfg, s) && t < cfg.Tasks()
  {
    s.tasks[t].phase != Committed && s.tasks[t].failedAttempts >= cfg.maxAttempts[t]
  }

  // ---- Which events escape ----

  /** The failures of `t` are used up, and all its attempts run on executor `e`. */
  predicate LastAttemptsOn(cfg: Config, s: State, t: nat, e: nat)
    requires Shaped(cfg, s)
  {
    t < cfg.Tasks() && UsedUp(cfg, s, t) && s.tasks[t].active != {} && s.tasks[t].active <= LeasesOn(s.leases, e)
  }

  /** The loss of lease `l` is one more loss event, and the last its executor is allowed. */
  predicate LastLoss(cfg: Config, s: State, l: nat)
    requires Shaped(cfg, s) && l in s.leases
  {
    var e := s.leases[l].executor;
    && !cfg.neverQuarantinedForLoss[e] && l >= s.executors[e].lossHorizon
    && s.executors[e].lossEvents + 1 >= cfg.quarantineAfterLossEvents
  }

  /** The lease for which an event quarantines the executor: an invalid result of it, or its loss as the last one allowed. */
  function QuarantiningLease(cfg: Config, s: State, event: Event): (l: Option<nat>)
    requires Shaped(cfg, s)
    ensures l.Some? ==> l.value in s.leases
  {
    var lost, corrupt := LostLease(s, event), CorruptLease(cfg, s, event);
    if corrupt.Some? then corrupt
    else if lost.Some? && LastLoss(cfg, s, lost.value) then lost
    else None
  }

  /** The refusal of the only attempt of a task whose failures are used up, or a quarantine that takes the last
      attempts of such a task, other than the one whose attempt just ended. */
  ghost predicate Escapes(cfg: Config, s: State, event: Event)
    requires Shaped(cfg, s)
  {
    || (event.Rejected? && event.lease in s.leases
        && UsedUp(cfg, s, s.leases[event.lease].task) && s.tasks[s.leases[event.lease].task].active == {event.lease})
    || (var l := QuarantiningLease(cfg, s, event);
        l.Some? && exists t: nat :: t != s.leases[l.value].task && LastAttemptsOn(cfg, s, t, s.leases[l.value].executor))
  }

  // ---- The parts of a step ----

  /** A refusal keeps the limit unless it takes the last attempt in flight of a task whose attempts are
      used up: the handler requeues it without looking. */
  lemma RejectionKeepsLimitUnless(cfg: Config, s: State, l: nat, now: int)
    requires Inv(cfg, s, {}) && l in s.leases && AllWithinLimit(cfg, s)
    ensures AllWithinLimit(cfg, OnRejected(cfg, s, l, now)) <==>
            !(UsedUp(cfg, s, s.leases[l].task) && s.tasks[s.leases[l].task].active == {l})
  {
    var r := OnRejected(cfg, s, l, now);
    var task := s.leases[l].task;
    assert LeaseKnown(s, l);
    if UsedUp(cfg, s, task) && s.tasks[task].active == {l} {
      assert !WithinLimit(cfg, r, task);
    } else {
      forall t ensures WithinLimit(cfg, r, t) { assert WithinLimit(cfg, s, t); }
    }
  }

  /** A quarantine takes a task past the limit exactly when it abandons the last attempts of a used-up task. */
  lemma QuarantineKeepsLimitUnless(cfg: Config, s: State, e: nat, t: nat)
    requires Shaped(cfg, s) && e < cfg.Executors() && !s.executors[e].quarantined && WithinLimit(cfg, s, t)
    ensures WithinLimit(cfg, Quarantine(cfg, s, e), t) <==> !LastAttemptsOn(cfg, s, t, e)
  {
    if t < cfg.Tasks() {
      var gone, active := LeasesOn(s.leases, e), s.tasks[t].active;
      assert Quarantine(cfg, s, e).tasks[t] == TaskLosing(s.tasks[t], gone, e);
      LosingDrops(s.tasks[t], gone, e);
      assert (forall l :: l in active ==> l in gone) <==> (forall l :: l in active ==> l !in active - gone);
      assert active <= gone ==> active * gone == active;
    }
  }

  /** After a failed attempt its own task is within the limit, or the build has failed. */
  lemma AttemptLostLimit(cfg: Config, s: State, t: nat, e: nat)
    requires Shaped(cfg, s) && t < cfg.Tasks() && s.failure.None?
    ensures var r := AttemptLost(cfg, s, t, e);
            r.failure.None? ==> (AllWithinLimit(cfg, r) <==> forall u: nat :: u != t ==> WithinLimit(cfg, s, u))
  {
    var r := AttemptLost(cfg, s, t, e);
    if r.failure.None? {
      assert WithinLimit(cfg, r, t);
      forall u: nat | u != t ensures WithinLimit(cfg, r, u) <==> WithinLimit(cfg, s, u) {}
    }
  }

  /** A task's limit depends on its own record only. */
  lemma SameTaskSameLimit(cfg: Config, s: State, r: State, u: nat)
    requires |r.tasks| == |s.tasks| && (u < |s.tasks| ==> r.tasks[u] == s.tasks[u])
    ensures WithinLimit(cfg, r, u) <==> WithinLimit(cfg, s, u)
  {
  }

  /** Releasing a lease changes nothing about the attempts of other tasks, nor of the executor's other leases. */
  lemma ReleaseLimit(cfg: Config, s: State, l: nat, u: nat)
    requires Inv(cfg, s, {}) && l in s.leases && u != s.leases[l].task
    ensures var r, e := Release(cfg, s, l), s.leases[l].executor;
            && (u < |s.tasks| ==> r.tasks[u] == s.tasks[u])
            && (LastAttemptsOn(cfg, r, u, e) <==> LastAttemptsOn(cfg, s, u, e))
            && r.executors[e].quarantined == s.executors[e].quarantined == false
  {
    var r, e := Release(cfg, s, l), s.leases[l].executor;
    assert ActiveKnown(s, u, l) && SlotsAgree(cfg, s, e);
    assert l in LeasesOn(s.leases, e) && LeasesOn(r.leases, e) == LeasesOn(s.leases, e) - {l};
  }

  /** Some counters later. */
  ghost predicate Noted(cfg: Config, s: State, noted: State, e: nat) {
    && Shaped(cfg, noted) && noted.tasks == s.tasks && noted.leases == s.leases && noted.failure.None?
    && e < |noted.executors| && e < |s.executors| && noted.executors[e].quarantined == s.executors[e].quarantined
  }

  /** The end of lease `l`, blamed on its executor or not: who is past the limit afterwards. */
  lemma EndLimit(cfg: Config, s: State, l: nat, noted: State, blamed: State, quarantines: bool)
    requires Shaped(cfg, s) && Inv(cfg, s, {}) && s.failure.None? && l in s.leases && AllWithinLimit(cfg, s)
    requires Noted(cfg, Release(cfg, s, l), noted, s.leases[l].executor)
    requires if quarantines then blamed == Quarantine(cfg, noted, s.leases[l].executor)
             else Shaped(cfg, blamed) && blamed.tasks == noted.tasks && blamed.failure.None?
    ensures var t, e := s.leases[l].task, s.leases[l].executor;
            var after := AttemptLost(cfg, blamed, t, e);
            after.failure.None? ==>
              (AllWithinLimit(cfg, after) <==> !(quarantines && exists u: nat :: u != t && LastAttemptsOn(cfg, s, u, e)))
  {
    hide AttemptLost, Inv, LastAttemptsOn;
    var t, e := s.leases[l].task, s.leases[l].executor;
    forall u: nat | u != t
      ensures WithinLimit(cfg, blamed, u) <==> !(quarantines && LastAttemptsOn(cfg, s, u, e))
    {
      ReleaseLimit(cfg, s, l, u);
      assert WithinLimit(cfg, s, u);
      SameTaskSameLimit(cfg, s, noted, u);
      if quarantines {
        QuarantineKeepsLimitUnless(cfg, noted, e, u);
        SameAttempts(cfg, Release(cfg, s, l), noted, u, e);
      }
    }
    AttemptLostLimit(cfg, blamed, t, e);
  }

  lemma SameAttempts(cfg: Config, s: State, r: State, u: nat, e: nat)
    requires Shaped(cfg, s) && Shaped(cfg, r) && r.tasks == s.tasks && r.leases == s.leases
    ensures LastAttemptsOn(cfg, r, u, e) <==> LastAttemptsOn(cfg, s, u, e)
  {
  }

  // ---- Every step ----

  /** An event that ends an attempt by blaming or excusing its executor. */
  lemma EndedStepLimit(cfg: Config, s: State, event: Event)
    requires Shaped(cfg, s) && Inv(cfg, s, {}) && s.failure.None? && AllWithinLimit(cfg, s)
    requires event.AttemptFailed? || (event.LeaseEnded? && event.lease in s.leases ==> Ended(s.leases[event.lease], event.now))
    requires (event.AttemptFailed? || event.LeaseEnded?) && event.lease in s.leases
    ensures StepLimit(cfg, s, event)
  {
    hide Inv, AllWithinLimit, LastAttemptsOn, AttemptLost, Quarantine, GrantLease, OnHeartbeat, OnFinished, OnRejected;
    var l := event.lease;
    var Lease(t, e, _, _, _, _, _, _) := s.leases[l];
    var released := Release(cfg, s, l);
    if event.AttemptFailed? && event.kind.InvalidResult? {
      var noted := CountInvalid(released);
      EndLimit(cfg, s, l, noted, Quarantine(cfg, noted, e), true);
    } else {
      var noted := if event.LeaseEnded? then CountEnding(released, s.leases[l], event.now) else released;
      var blamed := CountLoss(cfg, noted, l, e);
      assert LastLoss(cfg, s, l) ==> blamed == Quarantine(cfg, RecordLoss(cfg, noted, e), e);
      if LastLoss(cfg, s, l) {
        EndLimit(cfg, s, l, RecordLoss(cfg, noted, e), blamed, true);
      } else {
        EndLimit(cfg, s, l, noted, blamed, false);
      }
    }
  }

  /** What one step does to the limit, unless it fails the build. */
  ghost predicate StepLimit(cfg: Config, s: State, event: Event)
    requires Shaped(cfg, s)
    requires event.Grant? ==> event.task < cfg.Tasks() && event.executor < cfg.Executors()
  {
    var r := Step(cfg, s, event);
    r.failure.None? ==> (AllWithinLimit(cfg, r) <==> !Escapes(cfg, s, event))
  }

  lemma FinishedStepLimit(cfg: Config, s: State, event: Event)
    requires Shaped(cfg, s) && Inv(cfg, s, {}) && s.failure.None? && AllWithinLimit(cfg, s)
    requires event.Finished? && event.lease in s.leases
    ensures StepLimit(cfg, s, event)
  {
    hide Inv, AllWithinLimit, LastAttemptsOn, AttemptLost, Quarantine, GrantLease, OnHeartbeat, OnRejected, OnFailed, OnLeaseEnded;
    hide VerifiedSuccess;
    var l := event.lease;
    var Lease(t, e, _, _, _, _, _, _) := s.leases[l];
    var released := ReleaseFinished(cfg, s, l);
    match VerdictOf(cfg, s, l, event.output)
    case Invalid => EndLimit(cfg, s, l, CountInvalid(released), Quarantine(cfg, CountInvalid(released), e), true);
    case Retryable =>
      if released.tasks[t].phase == Committed { CommittedIsWithin(cfg, s, l, released); }
      else { EndLimit(cfg, s, l, released, released, false); }
    case Permanent => CommittedIsWithin(cfg, s, l, released);
    case Success(_) => SuccessLimit(cfg, s, event, l);
  }

  lemma CommittedIsWithin(cfg: Config, s: State, l: nat, r: State)
    requires Shaped(cfg, s) && l in s.leases && AllWithinLimit(cfg, s) && |r.tasks| == |s.tasks|
    requires forall u :: 0 <= u < |s.tasks| && u != s.leases[l].task ==> r.tasks[u] == s.tasks[u]
    ensures r.tasks[s.leases[l].task].phase == Committed ==> AllWithinLimit(cfg, r)
  {
    if r.tasks[s.leases[l].task].phase == Committed {
      forall u: nat ensures WithinLimit(cfg, r, u) { assert WithinLimit(cfg, s, u); }
    }
  }

  /** A verified success fails the build, or leaves its task committed and the others' attempts alone. */
  lemma SuccessLimit(cfg: Config, s: State, event: Event, l: nat)
    requires Shaped(cfg, s) && Inv(cfg, s, {}) && s.failure.None? && AllWithinLimit(cfg, s)
    requires event.Finished? && event.lease == l && l in s.leases && VerdictOf(cfg, s, l, event.output).Success?
    ensures StepLimit(cfg, s, event)
  {
    var r, released := Step(cfg, s, event), ReleaseFinished(cfg, s, l);
    assert r == VerifiedSuccess(cfg, released, l, s.leases[l], event.output, event.sinkThrows);
    SuccessSpares(cfg, released, l, s.leases[l], event.output, event.sinkThrows);
    hide VerifiedSuccess, Step;
    if r.failure.None? {
      forall u: nat ensures WithinLimit(cfg, r, u) { assert WithinLimit(cfg, s, u); }
    }
  }

  /** Committed tasks stay committed, and no task's attempts or failures change. */
  ghost predicate SparesAttempts(s: State, r: State) {
    && |r.tasks| == |s.tasks|
    && forall u :: 0 <= u < |s.tasks| ==>
         && r.tasks[u].active == s.tasks[u].active && r.tasks[u].failedAttempts == s.tasks[u].failedAttempts
         && (s.tasks[u].phase == Committed ==> r.tasks[u].phase == Committed)
  }

  lemma CommitSpares(cfg: Config, s: State, lease: Lease, output: AttemptOutput, throws: bool)
    requires Shaped(cfg, s) && s.failure.None? && lease.task < cfg.Tasks() && lease.executor < cfg.Executors()
    ensures var r := Commit(cfg, s, lease, output, throws);
            r.failure.None? ==> r.tasks[lease.task].phase == Committed && SparesAttempts(s, r)
  {
  }

  lemma SuccessSpares(cfg: Config, s: State, l: nat, lease: Lease, output: AttemptOutput, throws: bool)
    requires Shaped(cfg, s) && s.failure.None? && lease.task < cfg.Tasks() && lease.executor < cfg.Executors()
    ensures var r := VerifiedSuccess(cfg, s, l, lease, output, throws);
            r.failure.None? ==> r.tasks[lease.task].phase == Committed && SparesAttempts(s, r)
  {
    hide Commit;
    CommitSpares(cfg, NoteRecovery(cfg, s, l, lease.executor), lease, output, throws);
  }

  lemma GrantStepLimit(cfg: Config, s: State, event: Event)
    requires Shaped(cfg, s) && s.failure.None? && AllWithinLimit(cfg, s)
    requires event.Grant? && event.task < cfg.Tasks() && event.executor < cfg.Executors()
    ensures StepLimit(cfg, s, event)
  {
    var r := Step(cfg, s, event);
    assert s.nextLease in r.tasks[event.task].active;
    forall u: nat ensures WithinLimit(cfg, r, u) { assert WithinLimit(cfg, s, u); }
  }

  lemma IdleStepLimit(cfg: Config, s: State, event: Event)
    requires Shaped(cfg, s) && s.failure.None? && AllWithinLimit(cfg, s)
    requires event.Heartbeat? || (!event.Grant? && event.lease !in s.leases)
             || (event.LeaseEnded? && event.lease in s.leases && !Ended(s.leases[event.lease], event.now))
    ensures StepLimit(cfg, s, event)
  {
    var r := Step(cfg, s, event);
    forall u: nat ensures WithinLimit(cfg, r, u) { SameTaskSameLimit(cfg, s, r, u); assert WithinLimit(cfg, s, u); }
  }

  /** Exactly the escaping events take a task past the limit: any other event, of whatever kind, keeps it, unless
      it fails the build. */
  lemma StepKeepsLimitUnlessEscaping(cfg: Config, s: State, event: Event)
    requires Inv(cfg, s, {}) && s.failure.None? && Enabled(cfg, s, event) && AllWithinLimit(cfg, s)
    ensures Shaped(cfg, s)
    ensures var r := Step(cfg, s, event);
            r.failure.None? ==> (AllWithinLimit(cfg, r) <==> !Escapes(cfg, s, event))
  {
    assert Shaped(cfg, s);
    match event
    case Grant(_, _, _, _) => GrantStepLimit(cfg, s, event);
    case Heartbeat(_, _) => IdleStepLimit(cfg, s, event);
    case Finished(l, _, _) =>
      if l in s.leases { FinishedStepLimit(cfg, s, event); } else { IdleStepLimit(cfg, s, event); }
    case AttemptFailed(l, _) =>
      if l in s.leases { EndedStepLimit(cfg, s, event); } else { IdleStepLimit(cfg, s, event); }
    case LeaseEnded(l, now) =>
      if l in s.leases && Ended(s.leases[l], now) { EndedStepLimit(cfg, s, event); } else { IdleStepLimit(cfg, s, event); }
    case Rejected(l, now) =>
      if l in s.leases { RejectionKeepsLimitUnless(cfg, s, l, now); } else { IdleStepLimit(cfg, s, event); }
  }

  // ---- Whole runs ----

  ghost predicate WithinLimitAt(cfg: Config, run: Run, i: nat) {
    i < |run.states| && run.states[i].failure.None? ==> AllWithinLimit(cfg, run.states[i])
  }

  /** Step `i` escapes, and the build goes on. */
  ghost predicate EscapesAt(cfg: Config, run: Run, i: nat) {
    && i < |run.events| && i + 1 < |run.states| && Shaped(cfg, run.states[i])
    && run.states[i].failure.None? && run.states[i + 1].failure.None?
    && Escapes(cfg, run.states[i], run.events[i])
  }

  lemma StartsWithinLimit(cfg: Config, run: Run)
    requires IsRun(cfg, run)
    ensures WithinLimitAt(cfg, run, 0)
  {
    var s :| Untouched(cfg, s) && run.states[0] == Start(cfg, s);
    forall t: nat ensures WithinLimit(cfg, run.states[0], t) {}
  }

  lemma RunStepLimit(cfg: Config, run: Run, i: nat)
    requires IsRun(cfg, run) && i < |run.events| && WithinLimitAt(cfg, run, i)
    ensures WithinLimitAt(cfg, run, i + 1) <==> !EscapesAt(cfg, run, i)
  {
    InvThroughout(cfg, run, i);
    assert StepAt(cfg, run, i);
    var s := run.states[i];
    hide Inv, AllWithinLimit, Escapes, Enabled, Step;
    if s.failure.None? {
      StepKeepsLimitUnlessEscaping(cfg, s, run.events[i]);
    } else {
      FailedStays(cfg, s, run.events[i]);
    }
  }

  lemma FailedStays(cfg: Config, s: State, event: Event)
    requires Shaped(cfg, s) && s.failure.Some? && (event.Grant? ==> event.task < cfg.Tasks() && event.executor < cfg.Executors())
    ensures Step(cfg, s, event) == s
  {
  }

  lemma {:induction false} WithinLimitThroughout(cfg: Config, run: Run, i: nat)
    requires IsRun(cfg, run) && i < |run.states| && forall j :: !EscapesAt(cfg, run, j)
    ensures WithinLimitAt(cfg, run, i)
  {
    if i == 0 {
      StartsWithinLimit(cfg, run);
    } else {
      WithinLimitThroughout(cfg, run, i - 1);
      RunStepLimit(cfg, run, i - 1);
    }
  }

  /** A run keeps the limit at every point, until its build fails if it does, exactly when none of its steps escapes. */
  lemma LimitHoldsUnlessEscaped(cfg: Config, run: Run)
    requires IsRun(cfg, run)
    ensures (forall i :: WithinLimitAt(cfg, run, i)) <==> (forall i :: !EscapesAt(cfg, run, i))
  {
    hide IsRun, AllWithinLimit;
    if forall i :: WithinLimitAt(cfg, run, i) {
      forall i: nat ensures !EscapesAt(cfg, run, i) {
        if i < |run.events| { RunStepLimit(cfg, run, i); }
      }
    }
    if forall i :: !EscapesAt(cfg, run, i) {
      forall i: nat ensures WithinLimitAt(cfg, run, i) {
        if i < |run.states| { WithinLimitThroughout(cfg, run, i); }
      }
    }
  }

  /** Without speculative duplicates no step ever escapes. */
  lemma OnlyDuplicatesEscape(cfg: Config, run: Run, i: nat)
    requires IsRun(cfg, run) && !cfg.speculativeDuplicates
    ensures !EscapesAt(cfg, run, i)
  {
    if i < |run.events| && run.states[i].failure.None? && Shaped(cfg, run.states[i]) {
      forall t: nat | t < cfg.Tasks() ensures !UsedUp(cfg, run.states[i], t) { BoundedAttempts(cfg, run, i, t); }
    }
  }
}
