/**
 What one event does to leases, attempts and blame, told by the event and by who holds which lease, with no handler
 in between (scheduler_run.cpp).
 */
module SchedulerHistory {
  import opened Basics
  import opened ResultVerification
  import opened SchedulerState
  import opened SchedulerSteps
  import opened SchedulerInvariant

  // ---- What an event means ----

  /** The lease was not renewed in time, or its attempt has run for as long as it may. */
  predicate Late(lease: Lease, now: int) {
    now >= lease.expiresAt || now >= lease.deadlineAt
  }

  /** The event is about a lease that is still outstanding in a build that has not failed. */
  ghost predicate Counts(s: State, event: Event) {
    s.failure.None? && !event.Grant? && event.lease in s.leases
  }

  /** The output passes every check against the lease's task and attempt. */
  ghost predicate Passes(cfg: Config, s: State, l: nat, output: AttemptOutput)
    requires Shaped(cfg, s) && l in s.leases
  {
    Verified(cfg.hashing, cfg.graph.nodes[s.leases[l].task].taskId, s.leases[l].attempt, output)
  }

  /** The event reports that the attempt failed and may be tried again, of a task that is not complete. */
  ghost predicate ReportsRetryable(cfg: Config, s: State, event: Event)
    requires Shaped(cfg, s)
  {
    && Counts(s, event) && event.Finished? && s.leases[event.lease].task !in s.done
    && Passes(cfg, s, event.lease, event.output)
    && event.output.result.status == Failed && event.output.result.error.value.retryable
  }

  /** The event reports that the attempt failed and must not be tried again. */
  ghost predicate ReportsPermanent(cfg: Config, s: State, event: Event)
    requires Shaped(cfg, s)
  {
    && Counts(s, event) && event.Finished? && s.leases[event.lease].task !in s.done
    && Passes(cfg, s, event.lease, event.output)
    && event.output.result.status == Failed && !event.output.result.error.value.retryable
  }

  /** The attempt behind an outstanding lease has failed: it was lost, it returned what does not verify, its lease
      ended, or it says so and may be tried again. */
  ghost predicate FailsAttempt(cfg: Config, s: State, event: Event)
    requires Shaped(cfg, s)
  {
    && Counts(s, event)
    && match event
       case AttemptFailed(_, _) => true
       case LeaseEnded(l, now) => Late(s.leases[l], now)
       case Finished(l, output, _) => !Passes(cfg, s, l, output) || ReportsRetryable(cfg, s, event)
       case _ => false
  }

  /** After the event the lease is no longer outstanding. */
  ghost predicate EndsLease(s: State, event: Event) {
    Counts(s, event) && !event.Heartbeat? && (event.LeaseEnded? ==> Late(s.leases[event.lease], event.now))
  }

  ghost predicate NewlyQuarantined(s: State, r: State, e: nat) {
    e < |s.executors| && e < |r.executors| && r.executors[e].quarantined && !s.executors[e].quarantined
  }

  // ---- The parts of a step ----

  /** `p` is `s` without lease `l`. */
  ghost predicate AsReleased(s: State, p: State, l: nat)
    requires l in s.leases && s.leases[l].task < |s.tasks|
  {
    var t := s.leases[l].task;
    && p.leases == s.leases - {l} && p.tasks == s.tasks[t := s.tasks[t].(active := s.tasks[t].active - {l})]
    && p.failure == s.failure && p.done == s.done && p.nextLease == s.nextLease && p.incidents == s.incidents && |p.executors| == |s.executors|
    && p.stats.quarantined == s.stats.quarantined
    && forall x :: 0 <= x < |s.executors| ==> p.executors[x].quarantined == s.executors[x].quarantined
  }

  /** A task that no lease was granted to and no failure counted against. */
  predicate SameCounts(a: Task, b: Task) {
    && a.attemptsStarted == b.attemptsStarted && a.failedAttempts == b.failedAttempts
    && (a.phase == Committed <==> b.phase == Committed)
  }

  /** Between `p` and `q` at most executor `e` was quarantined, and if so all its leases are gone. */
  ghost predicate AsQuarantined(p: State, q: State, e: nat) {
    var gone := if NewlyQuarantined(p, q, e) then LeasesOn(p.leases, e) else {};
    && q.leases == p.leases - gone && |q.tasks| == |p.tasks|
    && q.failure == p.failure && q.done == p.done && q.nextLease == p.nextLease && q.incidents == p.incidents && |q.executors| == |p.executors|
    && q.stats == p.stats.(quarantined := p.stats.quarantined + if NewlyQuarantined(p, q, e) then [e] else [])
    && (forall x :: 0 <= x < |p.executors| ==>
          && (x != e ==> q.executors[x] == p.executors[x])
          && (p.executors[x].quarantined ==> q.executors[x].quarantined)
          && q.executors[x].declinedUntil == p.executors[x].declinedUntil)
    && forall u :: 0 <= u < |p.tasks| ==>
         && SameCounts(q.tasks[u], p.tasks[u]) && q.tasks[u].active == p.tasks[u].active - gone
         && q.tasks[u].avoid == p.tasks[u].avoid + (if p.tasks[u].active * gone != {} then {e} else {})
  }

  lemma LosingIs(task: Task, gone: set<nat>, e: nat)
    ensures var after := TaskLosing(task, gone, e);
            && SameCounts(after, task) && after.active == task.active - gone
            && after.avoid == task.avoid + (if task.active * gone != {} then {e} else {})
  {
    LosingDrops(task, gone, e);
  }

  lemma QuarantineIs(cfg: Config, s: State, e: nat)
    requires Shaped(cfg, s) && e < cfg.Executors()
    ensures AsQuarantined(s, Quarantine(cfg, s, e), e)
  {
    if !s.executors[e].quarantined {
      var gone := LeasesOn(s.leases, e);
      forall u | 0 <= u < |s.tasks| ensures Quarantine(cfg, s, e).tasks[u] == TaskLosing(s.tasks[u], gone, e) {}
      forall task: Task { LosingIs(task, gone, e); }
      hide TaskLosing, SameCounts, LeasesOn, Requeued;
    }
  }

  lemma CountLossIs(cfg: Config, s: State, l: nat, e: nat)
    requires Shaped(cfg, s) && e < cfg.Executors()
    ensures AsQuarantined(s, CountLoss(cfg, s, l, e), e)
  {
    QuarantineIs(cfg, RecordLoss(cfg, s, e), e);
    hide Quarantine;
    Unquarantined(s, s, e);
    Unquarantined(s, RecordLoss(cfg, s, e), e);
  }

  /** Nothing lost, nobody quarantined. */
  lemma Unquarantined(p: State, q: State, e: nat)
    requires q.leases == p.leases && q.tasks == p.tasks && q.failure == p.failure && q.done == p.done
    requires q.nextLease == p.nextLease && q.incidents == p.incidents && q.stats == p.stats && |q.executors| == |p.executors|
    requires forall x :: 0 <= x < |p.executors| ==>
               && (x != e ==> q.executors[x] == p.executors[x]) && q.executors[x].quarantined == p.executors[x].quarantined
               && q.executors[x].declinedUntil == p.executors[x].declinedUntil
    ensures AsQuarantined(p, q, e)
  {
  }

  lemma ReleaseIs(cfg: Config, s: State, l: nat)
    requires Shaped(cfg, s) && l in s.leases
    ensures AsReleased(s, Release(cfg, s, l), l) && AsReleased(s, ReleaseFinished(cfg, s, l), l)
  {
  }

  /** `r` counts a failed attempt of `t` by `e`: with nothing else of the task running it is queued again, or ends the
      build when its attempts are used up. */
  ghost predicate AsFailed(cfg: Config, q: State, r: State, t: nat, e: nat)
    requires t < |q.tasks| && t < |cfg.maxAttempts|
  {
    var idle, used := q.tasks[t].phase != Committed && q.tasks[t].active == {}, q.tasks[t].failedAttempts + 1 >= cfg.maxAttempts[t];
    && |r.tasks| == |q.tasks| && r.leases == q.leases && r.executors == q.executors && r.done == q.done && r.nextLease == q.nextLease
    && r.incidents == q.incidents && r.stats == q.stats.(retries := q.stats.retries + if idle && !used then 1 else 0)
    && (forall u :: 0 <= u < |q.tasks| && u != t ==> r.tasks[u] == q.tasks[u])
    && r.tasks[t].failedAttempts == q.tasks[t].failedAttempts + 1 && r.tasks[t].avoid == q.tasks[t].avoid + {e}
    && r.tasks[t].active == q.tasks[t].active && r.tasks[t].attemptsStarted == q.tasks[t].attemptsStarted
    && (r.tasks[t].phase == Committed <==> q.tasks[t].phase == Committed)
    && r.failure == (if idle && used then Some(Failure(RetriesExhausted, Some(t))) else None)
    && (idle && !used ==> t in r.ready && r.tasks[t].phase == Ready)
  }

  lemma AttemptLostIs(cfg: Config, q: State, t: nat, e: nat)
    requires Shaped(cfg, q) && t < cfg.Tasks() && q.failure.None?
    ensures AsFailed(cfg, q, AttemptLost(cfg, q, t, e), t, e)
  {
  }

  /** What is noted of a failed attempt besides the failure: an invalid result, a deadline passed, or a lease expired. */
  function Noted(cfg: Config, s: State, event: Event): Stats
    requires Shaped(cfg, s) && !event.Grant? && event.lease in s.leases
  {
    var stats := s.stats;
    match event
    case Finished(l, output, _) =>
      if VerdictOf(cfg, s, l, output).Invalid? then stats.(invalidResults := stats.invalidResults + 1) else stats
    case AttemptFailed(_, kind) => if kind.InvalidResult? then stats.(invalidResults := stats.invalidResults + 1) else stats
    case LeaseEnded(l, now) =>
      if s.leases[l].deadlineAt <= now then stats.(deadlinesExceeded := stats.deadlinesExceeded + 1)
      else stats.(leasesExpired := stats.leasesExpired + 1)
    case _ => stats
  }

  /** Lease `l` released, its executor perhaps quarantined, the failure counted. */
  ghost predicate Fails(cfg: Config, s: State, event: Event, p: State, q: State, r: State)
    requires Shaped(cfg, s) && !event.Grant? && event.lease in s.leases
  {
    var t, e := s.leases[event.lease].task, s.leases[event.lease].executor;
    && |p.tasks| == |q.tasks| == |s.tasks| && p.stats == Noted(cfg, s, event)
    && AsReleased(s, p, event.lease) && AsQuarantined(p, q, e) && AsFailed(cfg, q, r, t, e)
  }

  lemma FinishedFails(cfg: Config, s: State, event: Event) returns (p: State, q: State)
    requires Inv(cfg, s, {}) && FailsAttempt(cfg, s, event) && event.Finished?
    ensures Fails(cfg, s, event, p, q, OnFinished(cfg, s, event.lease, event.output, event.sinkThrows))
  {
    var l, t, e := event.lease, s.leases[event.lease].task, s.leases[event.lease].executor;
    VerdictIsExact(cfg.hashing, cfg.graph.nodes[t].taskId, s.leases[l].attempt, event.output);
    assert Placed(cfg, s, t, {});
    ReleaseIs(cfg, s, l);
    FailingFinish(cfg, s, l, event.output, event.sinkThrows);
    hide OnFinished, Inv, Verified, AsReleased, AsQuarantined, AsFailed, ReleaseFinished, AttemptLost, Quarantine;
    var invalid := VerdictOf(cfg, s, l, event.output).Invalid?;
    var released := ReleaseFinished(cfg, s, l);
    p := if invalid then CountInvalid(released) else released;
    SameButStats(s, released, p, l);
    q := if invalid then Quarantine(cfg, p, e) else p;
    FailingParts(cfg, s, l, p, q, t, e);
    FinishedStats(cfg, s, l);
  }

  lemma FinishedStats(cfg: Config, s: State, l: nat)
    requires Shaped(cfg, s) && l in s.leases
    ensures ReleaseFinished(cfg, s, l).stats == s.stats && |ReleaseFinished(cfg, s, l).tasks| == |s.tasks|
  {
  }

  lemma SameButStats(s: State, p: State, q: State, l: nat)
    requires l in s.leases && s.leases[l].task < |s.tasks| && AsReleased(s, p, l)
    requires q == p.(stats := q.stats) && q.stats.quarantined == p.stats.quarantined
    ensures AsReleased(s, q, l)
  {
  }

  lemma LostFails(cfg: Config, s: State, event: Event) returns (p: State, q: State)
    requires Inv(cfg, s, {}) && FailsAttempt(cfg, s, event) && event.AttemptFailed?
    ensures Fails(cfg, s, event, p, q, OnFailed(cfg, s, event.lease, event.kind))
  {
    var l, t, e := event.lease, s.leases[event.lease].task, s.leases[event.lease].executor;
    var released := Release(cfg, s, l);
    ReleaseIs(cfg, s, l);
    p := if event.kind.InvalidResult? then CountInvalid(released) else released;
    q := if event.kind.InvalidResult? then Quarantine(cfg, p, e) else CountLoss(cfg, p, l, e);
    hide Quarantine, CountLoss, AttemptLost, AsQuarantined, AsFailed, Inv;
    FailingParts(cfg, s, l, p, q, t, e);
  }

  lemma LateFails(cfg: Config, s: State, event: Event) returns (p: State, q: State)
    requires Inv(cfg, s, {}) && FailsAttempt(cfg, s, event) && event.LeaseEnded?
    ensures Fails(cfg, s, event, p, q, OnLeaseEnded(cfg, s, event.lease, event.now))
  {
    var l, t, e := event.lease, s.leases[event.lease].task, s.leases[event.lease].executor;
    ReleaseIs(cfg, s, l);
    p := CountEnding(Release(cfg, s, l), s.leases[l], event.now);
    q := CountLoss(cfg, p, l, e);
    hide CountLoss, AttemptLost, AsQuarantined, AsFailed, Inv;
    FailingParts(cfg, s, l, p, q, t, e);
  }

  /** A failed attempt: its lease released, its executor perhaps quarantined, the failure counted. */
  lemma FailingStep(cfg: Config, s: State, event: Event) returns (p: State, q: State)
    requires Inv(cfg, s, {}) && FailsAttempt(cfg, s, event)
    ensures var l := event.lease;
            var t, e := s.leases[l].task, s.leases[l].executor;
            && t < |s.tasks| == |p.tasks| == |q.tasks| && t < |cfg.maxAttempts|
            && AsReleased(s, p, l) && AsQuarantined(p, q, e) && AsFailed(cfg, q, Step(cfg, s, event), t, e)
            && p.stats == Noted(cfg, s, event)
  {
    assert Counts(s, event) && Shaped(cfg, s);
    hide FailsAttempt, Inv, AsReleased, AsQuarantined, AsFailed, Noted, OnFinished, OnFailed, OnLeaseEnded;
    if event.Finished? {
      p, q := FinishedFails(cfg, s, event);
    } else if event.AttemptFailed? {
      p, q := LostFails(cfg, s, event);
    } else {
      OnlyThese(cfg, s, event);
      p, q := LateFails(cfg, s, event);
    }
  }

  lemma OnlyThese(cfg: Config, s: State, event: Event)
    requires Shaped(cfg, s) && FailsAttempt(cfg, s, event)
    ensures event.Finished? || event.AttemptFailed? || event.LeaseEnded?
  {
  }

  lemma FailingFinish(cfg: Config, s: State, l: nat, output: AttemptOutput, throws: bool)
    requires Shaped(cfg, s) && l in s.leases
    requires VerdictOf(cfg, s, l, output).Invalid? || (VerdictOf(cfg, s, l, output).Retryable? && s.tasks[s.leases[l].task].phase != Committed)
    ensures var p, e, t := ReleaseFinished(cfg, s, l), s.leases[l].executor, s.leases[l].task;
            OnFinished(cfg, s, l, output, throws) ==
            AttemptLost(cfg, if VerdictOf(cfg, s, l, output).Invalid? then Quarantine(cfg, CountInvalid(p), e) else p, t, e)
  {
    hide Quarantine, AttemptLost;
  }

  lemma FailingParts(cfg: Config, s: State, l: nat, p: State, q: State, t: nat, e: nat)
    requires Shaped(cfg, s) && l in s.leases && s.failure.None? && t == s.leases[l].task && e == s.leases[l].executor
    requires Shaped(cfg, p) && AsReleased(s, p, l)
    requires q in {p, Quarantine(cfg, p, e), CountLoss(cfg, p, l, e)}
    ensures Shaped(cfg, q) && AsQuarantined(p, q, e) && AsFailed(cfg, q, AttemptLost(cfg, q, t, e), t, e)
  {
    QuarantineIs(cfg, p, e);
    CountLossIs(cfg, p, l, e);
    Unquarantined(p, p, e);
    hide Quarantine, CountLoss, AttemptLost;
    AttemptLostIs(cfg, q, t, e);
  }

  // ---- Events that count no failure ----

  /** From `p` to `r` no lease and no attempt changes; a task may have become complete. */
  ghost predicate AsSettled(p: State, r: State) {
    && r.leases == p.leases && r.nextLease == p.nextLease && |r.tasks| == |p.tasks| && |r.executors| == |p.executors|
    && r.stats.quarantined == p.stats.quarantined
    && (forall x :: 0 <= x < |p.executors| ==> r.executors[x].quarantined == p.executors[x].quarantined)
    && forall u :: 0 <= u < |p.tasks| ==>
         && r.tasks[u].attemptsStarted == p.tasks[u].attemptsStarted && r.tasks[u].failedAttempts == p.tasks[u].failedAttempts
         && r.tasks[u].active == p.tasks[u].active && r.tasks[u].avoid == p.tasks[u].avoid
  }

  lemma SuccessSettles(cfg: Config, p: State, l: nat, lease: Lease, output: AttemptOutput, throws: bool)
    requires Shaped(cfg, p) && lease.task < cfg.Tasks() && lease.executor < cfg.Executors()
    ensures AsSettled(p, VerifiedSuccess(cfg, p, l, lease, output, throws))
  {
    hide Commit, NoteRecovery, AsSettled;
    var noted, r := NoteRecovery(cfg, p, l, lease.executor), VerifiedSuccess(cfg, p, l, lease, output, throws);
    RecoverySettles(cfg, p, l, lease.executor);
    if noted.tasks[lease.task].phase != Committed {
      CommitSettles(cfg, noted, lease, output, throws);
    } else {
      NotingSettles(noted, r);
    }
    SettlesOn(p, noted, r);
  }

  lemma NotingSettles(p: State, r: State)
    requires r.leases == p.leases && r.nextLease == p.nextLease && r.tasks == p.tasks && r.executors == p.executors
    requires r.stats.quarantined == p.stats.quarantined
    ensures AsSettled(p, r)
  {
  }

  lemma SettlesOn(p: State, q: State, r: State)
    requires AsSettled(p, q) && AsSettled(q, r)
    ensures AsSettled(p, r)
  {
  }

  lemma RecoverySettles(cfg: Config, p: State, l: nat, e: nat)
    requires Shaped(cfg, p) && e < cfg.Executors()
    ensures AsSettled(p, NoteRecovery(cfg, p, l, e))
  {
  }

  lemma CommitSettles(cfg: Config, p: State, lease: Lease, output: AttemptOutput, throws: bool)
    requires Shaped(cfg, p) && lease.task < cfg.Tasks() && lease.executor < cfg.Executors()
    ensures AsSettled(p, Commit(cfg, p, lease, output, throws))
  {
  }

  lemma FinishSettles(cfg: Config, s: State, l: nat, output: AttemptOutput, throws: bool)
    requires Shaped(cfg, s) && s.failure.None? && l in s.leases && !VerdictOf(cfg, s, l, output).Invalid?
    requires VerdictOf(cfg, s, l, output).Retryable? ==> s.tasks[s.leases[l].task].phase == Committed
    ensures AsSettled(ReleaseFinished(cfg, s, l), OnFinished(cfg, s, l, output, throws))
  {
    SuccessSettles(cfg, ReleaseFinished(cfg, s, l), l, s.leases[l], output, throws);
    hide VerifiedSuccess, AttemptLost, Quarantine;
  }

  /** An event that ends a lease without a failure to count: a success, a permanent failure, a refusal, or the failure
      of an attempt nobody waits for any more. */
  lemma EndingStep(cfg: Config, s: State, event: Event) returns (p: State)
    requires Inv(cfg, s, {}) && EndsLease(s, event) && !FailsAttempt(cfg, s, event)
    ensures s.leases[event.lease].task < |s.tasks|
    ensures AsReleased(s, p, event.lease) && AsSettled(p, Step(cfg, s, event))
  {
    var l := event.lease;
    var t, lease := s.leases[l].task, s.leases[l];
    ReleaseIs(cfg, s, l);
    if event.Finished? {
      VerdictIsExact(cfg.hashing, cfg.graph.nodes[t].taskId, lease.attempt, event.output);
      assert Placed(cfg, s, t, {});
      p := ReleaseFinished(cfg, s, l);
      hide AsReleased, AsSettled, Inv;
      FinishSettles(cfg, s, l, event.output, event.sinkThrows);
      hide OnFinished, ReleaseFinished;
    } else {
      p := Release(cfg, s, l);
      assert event.Rejected?;
      RefusalSettles(cfg, s, l, event.now);
      hide OnRejected, Release, AsReleased, AsSettled, Inv;
    }
  }

  lemma RefusalSettles(cfg: Config, s: State, l: nat, now: int)
    requires Shaped(cfg, s) && l in s.leases
    ensures AsSettled(Release(cfg, s, l), OnRejected(cfg, s, l, now))
  {
  }

  /** An event about nothing outstanding changes nothing, and a heartbeat only the expiry of its lease. */
  lemma IdleStep(cfg: Config, s: State, event: Event)
    requires Shaped(cfg, s) && !event.Grant? && !EndsLease(s, event)
    ensures Step(cfg, s, event) ==
            if Counts(s, event) && event.Heartbeat? then
              s.(leases := s.leases[event.lease := s.leases[event.lease].(expiresAt := event.now + s.leases[event.lease].length)])
            else s
  {
  }

  // ---- Leases ----

  /** The lease an event grants. */
  ghost predicate Grants(s: State, event: Event, l: nat) {
    s.failure.None? && event.Grant? && l == s.nextLease
  }

  /** A lease stays outstanding unless the event ends it or its executor is quarantined. */
  ghost predicate Survives(s: State, event: Event, r: State, l: nat) {
    l in s.leases && !(EndsLease(s, event) && event.lease == l) && !NewlyQuarantined(s, r, s.leases[l].executor)
  }

  /** What one event makes of lease `l`. */
  ghost predicate LeaseStep(cfg: Config, s: State, event: Event, r: State, l: nat)
    requires Shaped(cfg, s)
  {
    && (l in r.leases <==> Survives(s, event, r, l) || Grants(s, event, l))
    && (Grants(s, event, l) && event.task < cfg.Tasks() ==>
          var Grant(t, e, speculative, now) := event;
          r.leases[l] == Lease(t, e, s.tasks[t].attemptsStarted + 1, cfg.leaseLength[t], now, now + cfg.leaseLength[t],
                               now + cfg.attemptLimit[t], speculative))
    && (Survives(s, event, r, l) ==>
          r.leases[l] == if Counts(s, event) && event.Heartbeat? && event.lease == l
                         then s.leases[l].(expiresAt := event.now + s.leases[l].length) else s.leases[l])
  }

  lemma GrantOnLeases(cfg: Config, s: State, event: Event, l: nat)
    requires Shaped(cfg, s) && s.nextLease !in s.leases && s.failure.None? && event.Grant? && event.task < cfg.Tasks() && event.executor < cfg.Executors()
    ensures LeaseStep(cfg, s, event, Step(cfg, s, event), l)
  {
  }

  lemma FailureOnLeases(cfg: Config, s: State, event: Event, p: State, q: State, r: State, l: nat)
    requires Shaped(cfg, s) && FailsAttempt(cfg, s, event) && |p.tasks| == |q.tasks| == |s.tasks| == |cfg.maxAttempts|
    requires AsReleased(s, p, event.lease) && AsQuarantined(p, q, s.leases[event.lease].executor)
    requires AsFailed(cfg, q, r, s.leases[event.lease].task, s.leases[event.lease].executor)
    ensures LeaseStep(cfg, s, event, r, l)
  {
    var e := s.leases[event.lease].executor;
    assert NewlyQuarantined(s, r, e) <==> NewlyQuarantined(p, q, e);
    assert forall x :: x != e ==> !NewlyQuarantined(s, r, x);
    assert EndsLease(s, event);
  }

  lemma EndingOnLeases(cfg: Config, s: State, event: Event, p: State, r: State, l: nat)
    requires Shaped(cfg, s) && EndsLease(s, event) && AsReleased(s, p, event.lease) && AsSettled(p, r)
    ensures LeaseStep(cfg, s, event, r, l)
  {
    assert forall x :: !NewlyQuarantined(s, r, x);
  }

  lemma StepOnLeases(cfg: Config, s: State, event: Event, l: nat)
    requires Inv(cfg, s, {}) && s.failure.None? && Enabled(cfg, s, event)
    ensures LeaseStep(cfg, s, event, Step(cfg, s, event), l)
  {
    if event.Grant? {
      assert LeaseKnown(s, s.nextLease);
      GrantOnLeases(cfg, s, event, l);
    } else if FailsAttempt(cfg, s, event) {
      hide Step, LeaseStep, FailsAttempt, AsReleased, AsQuarantined, AsFailed;
      var p, q := FailingStep(cfg, s, event);
      FailureOnLeases(cfg, s, event, p, q, Step(cfg, s, event), l);
    } else if EndsLease(s, event) {
      hide Step, LeaseStep, FailsAttempt, AsReleased, AsSettled, EndsLease;
      var p := EndingStep(cfg, s, event);
      EndingOnLeases(cfg, s, event, p, Step(cfg, s, event), l);
    } else {
      IdleStep(cfg, s, event);
      hide Step, FailsAttempt;
    }
  }

  // ---- Attempts and blame ----

  /** The event makes executor `e` answer for task `t`: an attempt of `t` on it failed, or it was quarantined while it
      ran one. */
  ghost predicate Blames(cfg: Config, s: State, event: Event, r: State, t: nat, e: nat)
    requires Shaped(cfg, s)
  {
    || (FailsAttempt(cfg, s, event) && s.leases[event.lease].task == t && s.leases[event.lease].executor == e)
    || (NewlyQuarantined(s, r, e) && exists l :: l in s.leases && s.leases[l].task == t && s.leases[l].executor == e)
  }

  ghost predicate AttemptStep(cfg: Config, s: State, event: Event, r: State, t: nat)
    requires Shaped(cfg, s) && t < |s.tasks|
  {
    && |r.tasks| == |s.tasks|
    && r.tasks[t].attemptsStarted == s.tasks[t].attemptsStarted + (if event.Grant? && event.task == t then 1 else 0)
    && r.tasks[t].failedAttempts ==
       s.tasks[t].failedAttempts + (if FailsAttempt(cfg, s, event) && s.leases[event.lease].task == t then 1 else 0)
    && forall e :: e in r.tasks[t].avoid <==> e in s.tasks[t].avoid || Blames(cfg, s, event, r, t, e)
  }

  lemma BlamedOnce(cfg: Config, s: State, event: Event, p: State, q: State, r: State, t: nat)
    requires Inv(cfg, s, {}) && FailsAttempt(cfg, s, event) && t < |s.tasks| == |p.tasks| == |q.tasks| == |cfg.maxAttempts|
    requires AsReleased(s, p, event.lease) && AsQuarantined(p, q, s.leases[event.lease].executor)
    requires AsFailed(cfg, q, r, s.leases[event.lease].task, s.leases[event.lease].executor)
    ensures forall e :: e in r.tasks[t].avoid <==> e in s.tasks[t].avoid || Blames(cfg, s, event, r, t, e)
  {
    var l := event.lease;
    var x := s.leases[l].executor;
    RunsHere(s, p, l, t, x);
    hide Inv, FailsAttempt;
    assert forall e :: e != x ==> !NewlyQuarantined(s, r, e);
    assert NewlyQuarantined(s, r, x) <==> NewlyQuarantined(p, q, x);
  }

  lemma RunsHere(s: State, p: State, l: nat, t: nat, x: nat)
    requires LeaseViews(s) && l in s.leases && t < |s.tasks| && s.leases[l].task < |s.tasks| && AsReleased(s, p, l)
    requires s.leases[l].executor == x
    ensures t < |p.tasks|
    ensures p.tasks[t].active * LeasesOn(p.leases, x) != {} || t == s.leases[l].task <==>
            exists k :: k in s.leases && s.leases[k].task == t && s.leases[k].executor == x
  {
    var both := p.tasks[t].active * LeasesOn(p.leases, x);
    if both != {} {
      var k :| k in both;
      assert ActiveKnown(s, t, k);
    }
    if k :| k in s.leases && s.leases[k].task == t && s.leases[k].executor == x && k != l {
      assert LeaseKnown(s, k);
      assert k in both;
    }
  }

  lemma FailureOnAttempts(cfg: Config, s: State, event: Event, p: State, q: State, r: State, t: nat)
    requires Inv(cfg, s, {}) && FailsAttempt(cfg, s, event) && t < |s.tasks| == |p.tasks| == |q.tasks| == |cfg.maxAttempts|
    requires AsReleased(s, p, event.lease) && AsQuarantined(p, q, s.leases[event.lease].executor)
    requires AsFailed(cfg, q, r, s.leases[event.lease].task, s.leases[event.lease].executor)
    ensures AttemptStep(cfg, s, event, r, t)
  {
    BlamedOnce(cfg, s, event, p, q, r, t);
    assert !event.Grant?;
    hide Inv, FailsAttempt, Blames;
  }

  lemma OthersOnAttempts(cfg: Config, s: State, event: Event, p: State, r: State, t: nat)
    requires Shaped(cfg, s) && EndsLease(s, event) && !FailsAttempt(cfg, s, event) && t < |s.tasks|
    requires AsReleased(s, p, event.lease) && AsSettled(p, r)
    ensures AttemptStep(cfg, s, event, r, t)
  {
    assert forall x :: !NewlyQuarantined(s, r, x);
    hide FailsAttempt;
  }

  lemma StepOnAttempts(cfg: Config, s: State, event: Event, t: nat)
    requires Inv(cfg, s, {}) && s.failure.None? && Enabled(cfg, s, event) && t < cfg.Tasks()
    ensures AttemptStep(cfg, s, event, Step(cfg, s, event), t)
  {
    if event.Grant? {
      GrantOnAttempts(cfg, s, event, t);
    } else if FailsAttempt(cfg, s, event) {
      hide Step, AttemptStep, FailsAttempt, AsReleased, AsQuarantined, AsFailed;
      var p, q := FailingStep(cfg, s, event);
      FailureOnAttempts(cfg, s, event, p, q, Step(cfg, s, event), t);
    } else if EndsLease(s, event) {
      hide Step, AttemptStep, FailsAttempt, AsReleased, AsSettled, EndsLease;
      var p := EndingStep(cfg, s, event);
      OthersOnAttempts(cfg, s, event, p, Step(cfg, s, event), t);
    } else {
      IdleStep(cfg, s, event);
      hide Step, FailsAttempt;
    }
  }

  lemma GrantOnAttempts(cfg: Config, s: State, event: Event, t: nat)
    requires Shaped(cfg, s) && s.failure.None? && event.Grant? && event.task < cfg.Tasks() && event.executor < cfg.Executors() && t < cfg.Tasks()
    ensures AttemptStep(cfg, s, event, Step(cfg, s, event), t)
  {
  }

  // ---- Quarantine ----

  /** Only a failed attempt quarantines, and only its own executor. */
  lemma StepOnQuarantine(cfg: Config, s: State, event: Event, e: nat)
    requires Inv(cfg, s, {}) && s.failure.None? && Enabled(cfg, s, event)
    ensures NewlyQuarantined(s, Step(cfg, s, event), e) ==> FailsAttempt(cfg, s, event) && s.leases[event.lease].executor == e
  {
    if event.Grant? {
    } else if FailsAttempt(cfg, s, event) {
      var p, q := FailingStep(cfg, s, event);
      hide Step, Inv, FailsAttempt;
    } else if EndsLease(s, event) {
      var p := EndingStep(cfg, s, event);
      hide Step, Inv, FailsAttempt;
    } else {
      IdleStep(cfg, s, event);
      hide Step, Inv, FailsAttempt;
    }
  }
}
