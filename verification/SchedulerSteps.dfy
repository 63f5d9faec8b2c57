/**
 One step of the scheduler as a function on states: what granting a lease and what each inbox event
 does to the four views of the same facts (scheduler_run.cpp, scheduler_dispatch.cpp).
 */
module SchedulerSteps {
  import opened Basics
  import opened ResultVerification
  import opened SchedulerState

  /** Takes a lease out of the lease map, its task and its executor. */
  function Release(cfg: Config, s: State, l: nat): (r: State)
    requires Shaped(cfg, s) && l in s.leases
    ensures Shaped(cfg, r)
  {
    var lease := s.leases[l];
    var task := s.tasks[lease.task];
    var executor := s.executors[lease.executor];
    s.(leases := s.leases - {l},
       executors := s.executors[lease.executor := executor.(active := executor.active - 1)],
       tasks := s.tasks[lease.task := task.(active := task.active - {l})])
  }

  function FailBuild(s: State, kind: FailureKind, task: Option<nat>): State {
    if s.failure.Some? then s else s.(failure := Some(Failure(kind, task)))
  }

  /** A task once the leases in `gone` were abandoned by `executor`'s quarantine. */
  function TaskLosing(task: Task, gone: set<nat>, executor: nat): Task {
    if task.active * gone == {} then task
    else
      var rest := task.active - gone;
      task.(active := rest,
            avoid := task.avoid + {executor},
            phase := if task.phase != Committed && rest == {} then Ready else task.phase)
  }

  predicate Requeued(task: Task, gone: set<nat>) {
    task.active * gone != {} && task.phase != Committed && task.active - gone == {}
  }

  /** Abandons the leases in `gone`, all held by `executor`. */
  function Abandon(cfg: Config, s: State, executor: nat, gone: set<nat>): (r: State)
    requires Shaped(cfg, s) && executor < cfg.Executors()
    ensures Shaped(cfg, r)
  {
    s.(leases := s.leases - gone,
       executors := s.executors[executor := s.executors[executor].(active := s.executors[executor].active - |gone|)],
       tasks := seq(|s.tasks|, t requires 0 <= t < |s.tasks| => TaskLosing(s.tasks[t], gone, executor)),
       ready := s.ready + set t | 0 <= t < |s.tasks| && Requeued(s.tasks[t], gone))
  }

  function MarkQuarantined(cfg: Config, s: State, executor: nat): (r: State)
    requires Shaped(cfg, s) && executor < cfg.Executors()
    ensures Shaped(cfg, r)
  {
    s.(executors := s.executors[executor := s.executors[executor].(quarantined := true)],
       stats := s.stats.(quarantined := s.stats.quarantined + [executor]))
  }

  function Quarantine(cfg: Config, s: State, executor: nat): (r: State)
    requires Shaped(cfg, s) && executor < cfg.Executors()
    ensures Shaped(cfg, r)
  {
    if s.executors[executor].quarantined then s
    else Abandon(cfg, MarkQuarantined(cfg, s, executor), executor, LeasesOn(s.leases, executor))
  }

  /** A failed attempt: retry the task, or fail the build when its attempts are used up. */
  function AttemptLost(cfg: Config, s: State, t: nat, executor: nat): (r: State)
    requires Shaped(cfg, s) && t < cfg.Tasks()
    ensures Shaped(cfg, r)
  {
    var task := s.tasks[t].(failedAttempts := s.tasks[t].failedAttempts + 1,
                            avoid := s.tasks[t].avoid + {executor});
    var counted := s.(tasks := s.tasks[t := task]);
    if task.phase == Committed || task.active != {} || s.failure.Some? then counted
    else if task.failedAttempts >= cfg.maxAttempts[t] then FailBuild(counted, RetriesExhausted, Some(t))
    else
      counted.(tasks := s.tasks[t := task.(phase := Ready)],
               ready := s.ready + {t},
               stats := s.stats.(retries := s.stats.retries + 1))
  }

  /** One more loss event, which every lease granted so far belongs to. */
  function RecordLoss(cfg: Config, s: State, executor: nat): (r: State)
    requires Shaped(cfg, s) && executor < cfg.Executors()
    ensures Shaped(cfg, r)
  {
    var record := s.executors[executor];
    s.(executors := s.executors[executor := record.(lossEvents := record.lossEvents + 1, lossHorizon := s.nextLease)])
  }

  /** Counts the loss of lease `l` as a new loss event unless it was already outstanding at the last one. */
  function CountLoss(cfg: Config, s: State, l: nat, executor: nat): (r: State)
    requires Shaped(cfg, s) && executor < cfg.Executors()
    ensures Shaped(cfg, r)
  {
    var record := s.executors[executor];
    if cfg.neverQuarantinedForLoss[executor] || l < record.lossHorizon then s
    else
      var counted := RecordLoss(cfg, s, executor);
      if record.lossEvents + 1 >= cfg.quarantineAfterLossEvents then Quarantine(cfg, counted, executor)
      else counted
  }

  function NoteRecovery(cfg: Config, s: State, l: nat, executor: nat): (r: State)
    requires Shaped(cfg, s) && executor < cfg.Executors()
    ensures Shaped(cfg, r)
  {
    var record := s.executors[executor];
    if l >= record.lossHorizon then s.(executors := s.executors[executor := record.(lossEvents := 0)]) else s
  }

  /** The waiting tasks that completing `t` unblocks. */
  function NewlyReady(cfg: Config, s: State, t: nat): set<nat>
    requires Shaped(cfg, s) && t < cfg.Tasks()
  {
    set d | d in cfg.graph.dependents[t] && s.tasks[d].phase == Waiting && cfg.graph.Unblocked(d, s.done + {t})
  }

  function MarkReadyDependents(cfg: Config, s: State, t: nat): (r: State)
    requires Shaped(cfg, s) && t < cfg.Tasks()
    ensures Shaped(cfg, r)
  {
    var unblocked := NewlyReady(cfg, s, t);
    s.(done := s.done + {t},
       tasks := seq(|s.tasks|, i requires 0 <= i < |s.tasks| =>
                   if i in unblocked then s.tasks[i].(phase := Ready) else s.tasks[i]),
       ready := s.ready + unblocked)
  }

  /** Hands the first verified result of `lease`'s task to the sink, which refuses a second one. */
  function Commit(cfg: Config, s: State, lease: Lease, output: AttemptOutput, sinkThrows: bool): (r: State)
    requires Shaped(cfg, s) && lease.task < cfg.Tasks() && lease.executor < cfg.Executors()
    ensures Shaped(cfg, r)
  {
    var t := lease.task;
    var id := cfg.executorIds[lease.executor];
    if sinkThrows || t in s.sink then FailBuild(s, CommitFailed, Some(t))
    else
      var task := s.tasks[t].(phase := Committed,
                              committedAttempt := lease.attempt,
                              committedExecutor := id,
                              committedDigest := output.result.outputDigest);
      var stored := s.(sink := s.sink[t := CommittedResult(output, id)],
                       tasks := s.tasks[t := task],
                       ready := s.ready - {t},
                       stats := s.stats.(committed := s.stats.committed + 1));
      MarkReadyDependents(cfg, stored, t)
  }

  function VerifiedSuccess(cfg: Config, s: State, l: nat, lease: Lease, output: AttemptOutput, sinkThrows: bool): (r: State)
    requires Shaped(cfg, s) && lease.task < cfg.Tasks() && lease.executor < cfg.Executors()
    ensures Shaped(cfg, r)
  {
    var s1 := NoteRecovery(cfg, s, l, lease.executor);
    var task := s1.tasks[lease.task];
    if task.phase != Committed then Commit(cfg, s1, lease, output, sinkThrows)
    else if output.result.outputDigest == task.committedDigest then
      s1.(stats := s1.stats.(duplicatesDiscarded := s1.stats.duplicatesDiscarded + 1))
    else
      var conflicting := Commitment(lease.attempt, cfg.executorIds[lease.executor], output.result.outputDigest);
      FailBuild(s1.(incidents := s1.incidents + [Incident(lease.task, RecordOf(task), conflicting)]),
                DeterminismIncident, Some(lease.task))
  }

  function GrantLease(cfg: Config, s: State, t: nat, executor: nat, speculative: bool, now: int): (r: State)
    requires Shaped(cfg, s) && t < cfg.Tasks() && executor < cfg.Executors()
    ensures Shaped(cfg, r)
  {
    var l := s.nextLease;
    var task := s.tasks[t];
    var record := s.executors[executor];
    var lease := Lease(t, executor, task.attemptsStarted + 1, cfg.leaseLength[t], now,
                       now + cfg.leaseLength[t], now + cfg.attemptLimit[t], speculative);
    s.(leases := s.leases[l := lease],
       nextLease := l + 1,
       tasks := s.tasks[t := task.(phase := Leased, attemptsStarted := task.attemptsStarted + 1,
                                   active := task.active + {l})],
       ready := s.ready - {t},
       executors := s.executors[executor := record.(active := record.active + 1)],
       stats := s.stats.(attemptsStarted := s.stats.attemptsStarted + 1,
                         speculativeAttempts := s.stats.speculativeAttempts + if speculative then 1 else 0))
  }

  function OnHeartbeat(s: State, l: nat, now: int): State {
    if l !in s.leases then s
    else s.(leases := s.leases[l := s.leases[l].(expiresAt := now + s.leases[l].length)])
  }

  function VerdictOf(cfg: Config, s: State, l: nat, output: AttemptOutput): Verdict
    requires Shaped(cfg, s) && l in s.leases
  {
    Judge(cfg.hashing, cfg.graph.nodes[s.leases[l].task].taskId, s.leases[l].attempt, output)
  }

  /** Releases the lease and ends the executor's back-off: a finished attempt freed capacity. */
  function ReleaseFinished(cfg: Config, s: State, l: nat): (r: State)
    requires Shaped(cfg, s) && l in s.leases
    ensures Shaped(cfg, r)
  {
    var e := s.leases[l].executor;
    var released := Release(cfg, s, l);
    released.(executors := released.executors[e := released.executors[e].(declinedUntil := 0)])
  }

  function CountInvalid(s: State): State {
    s.(stats := s.stats.(invalidResults := s.stats.invalidResults + 1))
  }

  function OnFinished(cfg: Config, s: State, l: nat, output: AttemptOutput, sinkThrows: bool): (r: State)
    requires Shaped(cfg, s)
    ensures Shaped(cfg, r)
  {
    if l !in s.leases then s
    else
      var lease := s.leases[l];
      var released := ReleaseFinished(cfg, s, l);
      match VerdictOf(cfg, s, l, output)
      case Invalid =>
        AttemptLost(cfg, Quarantine(cfg, CountInvalid(released), lease.executor), lease.task, lease.executor)
      case Success(_) => VerifiedSuccess(cfg, released, l, lease, output, sinkThrows)
      case Permanent =>
        if released.tasks[lease.task].phase == Committed then released
        else FailBuild(released, PermanentTaskFailure, Some(lease.task))
      case Retryable =>
        if released.tasks[lease.task].phase == Committed then released
        else AttemptLost(cfg, released, lease.task, lease.executor)
  }

  function OnFailed(cfg: Config, s: State, l: nat, kind: AttemptFailureKind): (r: State)
    requires Shaped(cfg, s)
    ensures Shaped(cfg, r)
  {
    if l !in s.leases then s
    else
      var lease := s.leases[l];
      var released := Release(cfg, s, l);
      var blamed := if kind.InvalidResult? then Quarantine(cfg, CountInvalid(released), lease.executor)
                    else CountLoss(cfg, released, l, lease.executor);
      AttemptLost(cfg, blamed, lease.task, lease.executor)
  }

  function Requeue(s: State, t: nat): State
    requires t < |s.tasks|
  {
    if s.tasks[t].phase != Committed && s.tasks[t].active == {} then
      s.(tasks := s.tasks[t := s.tasks[t].(phase := Ready)], ready := s.ready + {t})
    else s
  }

  /** Counts a rejection and starts the executor's back-off. */
  function Decline(cfg: Config, s: State, executor: nat, now: int): (r: State)
    requires Shaped(cfg, s) && executor < cfg.Executors()
    ensures Shaped(cfg, r)
  {
    var record := s.executors[executor].(declinedUntil := now + cfg.rejectionBackoff);
    s.(executors := s.executors[executor := record],
       stats := s.stats.(leasesRejected := s.stats.leasesRejected + 1))
  }

  function OnRejected(cfg: Config, s: State, l: nat, now: int): (r: State)
    requires Shaped(cfg, s)
    ensures Shaped(cfg, r)
  {
    if l !in s.leases then s
    else
      var lease := s.leases[l];
      Requeue(Decline(cfg, Release(cfg, s, l), lease.executor, now), lease.task)
  }

  predicate Ended(lease: Lease, now: int) {
    lease.expiresAt <= now || lease.deadlineAt <= now
  }

  function CountEnding(s: State, lease: Lease, now: int): State {
    if lease.deadlineAt <= now then s.(stats := s.stats.(deadlinesExceeded := s.stats.deadlinesExceeded + 1))
    else s.(stats := s.stats.(leasesExpired := s.stats.leasesExpired + 1))
  }

  /** One lease of the expiry sweep: past its hard deadline, or not renewed in time. */
  function OnLeaseEnded(cfg: Config, s: State, l: nat, now: int): (r: State)
    requires Shaped(cfg, s)
    ensures Shaped(cfg, r)
  {
    if l !in s.leases || !Ended(s.leases[l], now) then s
    else
      var lease := s.leases[l];
      var noted := CountEnding(Release(cfg, s, l), lease, now);
      AttemptLost(cfg, CountLoss(cfg, noted, l, lease.executor), lease.task, lease.executor)
  }

  /** After a failure nothing more is applied. */
  function Step(cfg: Config, s: State, event: Event): (r: State)
    requires Shaped(cfg, s)
    requires event.Grant? ==> event.task < cfg.Tasks() && event.executor < cfg.Executors()
    ensures Shaped(cfg, r)
  {
    if s.failure.Some? then s
    else
      match event
      case Grant(t, e, speculative, now) => GrantLease(cfg, s, t, e, speculative, now)
      case Heartbeat(l, now) => OnHeartbeat(s, l, now)
      case Finished(l, output, sinkThrows) => OnFinished(cfg, s, l, output, sinkThrows)
      case AttemptFailed(l, kind) => OnFailed(cfg, s, l, kind)
      case Rejected(l, now) => OnRejected(cfg, s, l, now)
      case LeaseEnded(l, now) => OnLeaseEnded(cfg, s, l, now)
  }

  // ---- Who may be granted what ----

  predicate Usable(cfg: Config, s: State, executor: nat)
    requires |s.executors| == cfg.Executors()
  {
    executor < cfg.Executors() && !s.executors[executor].quarantined
  }

  predicate HasFreeSlot(cfg: Config, s: State, executor: nat)
    requires |s.executors| == cfg.Executors() && executor < cfg.Executors()
  {
    s.executors[executor].active < cfg.slots[executor]
  }

  predicate BackingOff(s: State, executor: nat, now: int)
    requires executor < |s.executors|
  {
    s.executors[executor].declinedUntil > now
  }

  predicate AnyBackingOff(cfg: Config, s: State, now: int)
    requires |s.executors| == cfg.Executors()
  {
    exists e: nat :: e < |s.executors| && !s.executors[e].quarantined && BackingOff(s, e, now)
  }

  predicate HasOtherUsable(cfg: Config, s: State, t: nat, executor: nat)
    requires |s.executors| == cfg.Executors() && t < |s.tasks|
  {
    exists other: nat :: other < cfg.Executors() && other != executor && Usable(cfg, s, other)
                         && other !in s.tasks[t].avoid && cfg.Accepts(other, t)
  }

  /** Whether `executor` would take `t` off the queue. */
  predicate Pickable(cfg: Config, s: State, t: nat, executor: nat)
    requires |s.executors| == cfg.Executors() && t < |s.tasks|
  {
    && cfg.Accepts(executor, t)
    && (!cfg.preferDifferentExecutor || executor !in s.tasks[t].avoid || !HasOtherUsable(cfg, s, t, executor))
  }

  /** Whether `executor` may run a duplicate of the attempt behind lease `l`. */
  predicate Duplicable(cfg: Config, s: State, l: nat, executor: nat)
    requires Shaped(cfg, s)
  {
    && l in s.leases
    && s.leases[l].executor != executor
    && s.tasks[s.leases[l].task].phase != Committed
    && |s.tasks[s.leases[l].task].active| == 1
    && executor !in s.tasks[s.leases[l].task].avoid
    && cfg.Accepts(executor, s.leases[l].task)
  }

  /** The grants dispatch can make. */
  ghost predicate MayGrant(cfg: Config, s: State, t: nat, executor: nat, speculative: bool, now: int)
    requires Shaped(cfg, s)
  {
    && s.failure.None?
    && t < cfg.Tasks()
    && Usable(cfg, s, executor)
    && HasFreeSlot(cfg, s, executor)
    && !BackingOff(s, executor, now)
    && if speculative
       then cfg.speculativeDuplicates && exists l :: Duplicable(cfg, s, l, executor) && s.leases[l].task == t
       else t in s.ready && Pickable(cfg, s, t, executor)
  }

  ghost predicate Enabled(cfg: Config, s: State, event: Event)
    requires Shaped(cfg, s)
  {
    event.Grant? ==> MayGrant(cfg, s, event.task, event.executor, event.speculative, event.now)
  }
}
