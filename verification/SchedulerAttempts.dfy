/** How many attempts a task can be given when there are no speculative duplicates. */
module SchedulerAttempts {
  import opened Basics
  import opened ResultVerification
  import opened TaskGraphs
  import opened SchedulerState
  import opened SchedulerSteps
  import opened SchedulerInvariant
  import opened SchedulerResume
  import opened SchedulerRuns

  function Quarantined(s: State): set<nat> {
    set e: nat | e < |s.executors| && s.executors[e].quarantined
  }

  /** A task run one attempt at a time, with what it has used up: its failures, its attempt in flight,
      the attempts that `quarantines` took from it, and an `allowance`. */
  predicate Accounted(task: Task, limit: nat, quarantines: nat, allowance: nat) {
    && |task.active| <= 1
    && if task.phase == Committed
       then task.active == {} && task.attemptsStarted <= limit + quarantines + allowance
       else task.failedAttempts < limit
            && task.attemptsStarted <= task.failedAttempts + |task.active| + quarantines + allowance
  }

  ghost predicate Budget(cfg: Config, s: State, t: nat, allowance: nat) {
    t < |s.tasks| && t < |cfg.maxAttempts| ==>
      Accounted(s.tasks[t], cfg.maxAttempts[t], |Quarantined(s)|, allowance)
  }

  /** The bound that outlives a failed build. */
  ghost predicate Bounded(cfg: Config, s: State, t: nat, rejections: nat) {
    t < |s.tasks| && t < |cfg.maxAttempts| ==>
      s.tasks[t].attemptsStarted <= cfg.maxAttempts[t] + |Quarantined(s)| + rejections
  }

  lemma SameQuarantined(s: State, r: State)
    requires |s.executors| == |r.executors|
    requires forall e :: 0 <= e < |s.executors| ==> r.executors[e].quarantined == s.executors[e].quarantined
    ensures Quarantined(r) == Quarantined(s)
  {
  }

  lemma ReleaseBudget(cfg: Config, s: State, l: nat, t: nat, allowance: nat)
    requires Shaped(cfg, s) && l in s.leases && LeaseKnown(s, l) && ActiveKnown(s, t, l) && Budget(cfg, s, t, allowance)
    ensures Budget(cfg, Release(cfg, s, l), t, if s.leases[l].task == t then allowance + 1 else allowance)
  {
    SameQuarantined(s, Release(cfg, s, l));
    if s.leases[l].task == t {
      OnlyMember(s.tasks[t].active, l);
    }
  }

  /** A quarantine pays for the one attempt it takes from a task. */
  lemma LosingAccounted(task: Task, gone: set<nat>, e: nat, limit: nat, quarantines: nat, allowance: nat)
    requires Accounted(task, limit, quarantines, allowance)
    ensures Accounted(TaskLosing(task, gone, e), limit, quarantines + 1, allowance)
  {
    LosingDrops(task, gone, e);
    SubsetIsNotLarger(task.active - gone, task.active);
  }

  lemma QuarantineCounts(cfg: Config, s: State, e: nat)
    requires Shaped(cfg, s) && e < cfg.Executors() && !s.executors[e].quarantined
    ensures |Quarantined(Quarantine(cfg, s, e))| == |Quarantined(s)| + 1
  {
    assert Quarantined(Quarantine(cfg, s, e)) == Quarantined(s) + {e};
    assert e !in Quarantined(s);
  }

  lemma QuarantineBudget(cfg: Config, s: State, e: nat, t: nat, allowance: nat)
    requires Shaped(cfg, s) && e < cfg.Executors() && Budget(cfg, s, t, allowance)
    ensures Budget(cfg, Quarantine(cfg, s, e), t, allowance)
  {
    if !s.executors[e].quarantined && t < |s.tasks| {
      QuarantineCounts(cfg, s, e);
      LosingAccounted(s.tasks[t], LeasesOn(s.leases, e), e, cfg.maxAttempts[t], |Quarantined(s)|, allowance);
    }
  }

  /** A quarantine has nothing to take from a task without an attempt in flight. */
  lemma QuarantineSpares(cfg: Config, s: State, e: nat, t: nat)
    requires Shaped(cfg, s) && e < cfg.Executors() && t < cfg.Tasks() && s.tasks[t].active == {}
    ensures Quarantine(cfg, s, e).tasks[t] == s.tasks[t] && Quarantine(cfg, s, e).failure == s.failure
  {
  }

  lemma CountLossBudget(cfg: Config, s: State, l: nat, e: nat, t: nat, allowance: nat)
    requires Shaped(cfg, s) && e < cfg.Executors() && Budget(cfg, s, t, allowance)
    ensures Budget(cfg, CountLoss(cfg, s, l, e), t, allowance)
  {
    var counted := RecordLoss(cfg, s, e);
    SameQuarantined(s, counted);
    QuarantineBudget(cfg, counted, e, t, allowance);
  }

  lemma CountLossSpares(cfg: Config, s: State, l: nat, e: nat, t: nat)
    requires Shaped(cfg, s) && e < cfg.Executors() && t < cfg.Tasks() && s.tasks[t].active == {}
    ensures CountLoss(cfg, s, l, e).tasks[t] == s.tasks[t] && CountLoss(cfg, s, l, e).failure == s.failure
  {
  }

  /** Kept unless the build failed; the bound is kept regardless. */
  ghost predicate StillBudgeted(cfg: Config, r: State, t: nat, allowance: nat) {
    (r.failure.None? ==> Budget(cfg, r, t, allowance)) && Bounded(cfg, r, t, allowance)
  }

  /** A failed attempt is paid for by the failure it counts. */
  lemma AttemptLostBudget(cfg: Config, s: State, t: nat, e: nat, u: nat, allowance: nat)
    requires Shaped(cfg, s) && t < cfg.Tasks() && s.failure.None?
    requires s.tasks[t].phase != Committed && s.tasks[t].active == {}
    requires Budget(cfg, s, u, if u == t then allowance + 1 else allowance)
    ensures StillBudgeted(cfg, AttemptLost(cfg, s, t, e), u, allowance)
  {
    SameQuarantined(s, AttemptLost(cfg, s, t, e));
  }

  /** A commit is paid for by the attempt that made it: there was room for one more failure. */
  lemma CommitBudget(cfg: Config, s: State, lease: Lease, output: AttemptOutput, sinkThrows: bool, u: nat, allowance: nat)
    requires Shaped(cfg, s) && lease.task < cfg.Tasks() && lease.executor < cfg.Executors() && s.failure.None?
    requires s.tasks[lease.task].phase == Leased && s.tasks[lease.task].active == {}
    requires Budget(cfg, s, u, if u == lease.task then allowance + 1 else allowance)
    ensures StillBudgeted(cfg, Commit(cfg, s, lease, output, sinkThrows), u, allowance)
  {
    SameQuarantined(s, Commit(cfg, s, lease, output, sinkThrows));
  }

  /** The task of a lease, when no task runs two attempts: leased, and idle once the lease is released. */
  lemma SoleAttempt(cfg: Config, s: State, l: nat)
    requires Inv(cfg, s, {}) && l in s.leases && |s.tasks[s.leases[l].task].active| <= 1
    requires s.tasks[s.leases[l].task].phase == Committed ==> s.tasks[s.leases[l].task].active == {}
    ensures s.tasks[s.leases[l].task].phase == Leased
    ensures Release(cfg, s, l).tasks[s.leases[l].task].active == {}
  {
    LeasedOrCommitted(cfg, s, l);
    assert LeaseKnown(s, l);
    OnlyMember(s.tasks[s.leases[l].task].active, l);
  }

  ghost predicate Single(s: State, t: nat) {
    t < |s.tasks| ==> |s.tasks[t].active| <= 1 && (s.tasks[t].phase == Committed ==> s.tasks[t].active == {})
  }

  lemma FinishedBudget(cfg: Config, s: State, l: nat, output: AttemptOutput, sinkThrows: bool, u: nat, allowance: nat)
    requires Inv(cfg, s, {}) && s.failure.None? && l in s.leases
    requires Budget(cfg, s, u, allowance) && Single(s, s.leases[l].task)
    ensures StillBudgeted(cfg, OnFinished(cfg, s, l, output, sinkThrows), u, allowance)
  {
    var lease := s.leases[l];
    var t := lease.task;
    assert LeaseKnown(s, l) && ActiveKnown(s, u, l);
    SoleAttempt(cfg, s, l);
    ReleaseBudget(cfg, s, l, u, allowance);
    var open := if t == u then allowance + 1 else allowance;
    var released := ReleaseFinished(cfg, s, l);
    SameQuarantined(Release(cfg, s, l), released);
    match VerdictOf(cfg, s, l, output)
    case Invalid => InvalidBudget(cfg, released, lease.executor, t, u, allowance);
    case Success(_) =>
      var s1 := NoteRecovery(cfg, released, l, lease.executor);
      SameQuarantined(released, s1);
      CommitBudget(cfg, s1, lease, output, sinkThrows, u, allowance);
    case Permanent => SameQuarantined(released, FailBuild(released, PermanentTaskFailure, Some(t)));
    case Retryable => AttemptLostBudget(cfg, released, t, lease.executor, u, allowance);
  }

  lemma InvalidBudget(cfg: Config, s: State, e: nat, t: nat, u: nat, allowance: nat)
    requires Shaped(cfg, s) && t < cfg.Tasks() && e < cfg.Executors() && s.failure.None?
    requires s.tasks[t].phase != Committed && s.tasks[t].active == {}
    requires Budget(cfg, s, u, if u == t then allowance + 1 else allowance)
    ensures StillBudgeted(cfg, AttemptLost(cfg, Quarantine(cfg, CountInvalid(s), e), t, e), u, allowance)
  {
    var counted := CountInvalid(s);
    SameQuarantined(s, counted);
    QuarantineBudget(cfg, counted, e, u, if u == t then allowance + 1 else allowance);
    QuarantineSpares(cfg, counted, e, t);
    AttemptLostBudget(cfg, Quarantine(cfg, counted, e), t, e, u, allowance);
  }

  lemma LostBudget(cfg: Config, s: State, l: nat, e: nat, t: nat, u: nat, allowance: nat)
    requires Shaped(cfg, s) && t < cfg.Tasks() && e < cfg.Executors() && s.failure.None?
    requires s.tasks[t].phase != Committed && s.tasks[t].active == {}
    requires Budget(cfg, s, u, if u == t then allowance + 1 else allowance)
    ensures StillBudgeted(cfg, AttemptLost(cfg, CountLoss(cfg, s, l, e), t, e), u, allowance)
  {
    CountLossBudget(cfg, s, l, e, u, if u == t then allowance + 1 else allowance);
    CountLossSpares(cfg, s, l, e, t);
    AttemptLostBudget(cfg, CountLoss(cfg, s, l, e), t, e, u, allowance);
  }

  lemma EndedBudget(cfg: Config, s: State, event: Event, l: nat, u: nat, allowance: nat)
    requires Inv(cfg, s, {}) && s.failure.None? && l in s.leases
    requires event.AttemptFailed? || (event.LeaseEnded? && Ended(s.leases[l], event.now))
    requires event.lease == l
    requires Budget(cfg, s, u, allowance) && Single(s, s.leases[l].task)
    ensures StillBudgeted(cfg, Step(cfg, s, event), u, allowance)
  {
    var lease := s.leases[l];
    assert LeaseKnown(s, l) && ActiveKnown(s, u, l);
    SoleAttempt(cfg, s, l);
    ReleaseBudget(cfg, s, l, u, allowance);
    var released := Release(cfg, s, l);
    if event.LeaseEnded? {
      var noted := CountEnding(released, lease, event.now);
      SameQuarantined(released, noted);
      LostBudget(cfg, noted, l, lease.executor, lease.task, u, allowance);
    } else if event.kind.InvalidResult? {
      InvalidBudget(cfg, released, lease.executor, lease.task, u, allowance);
    } else {
      LostBudget(cfg, released, l, lease.executor, lease.task, u, allowance);
    }
  }

  lemma RejectedBudget(cfg: Config, s: State, l: nat, now: int, u: nat, allowance: nat)
    requires Inv(cfg, s, {}) && s.failure.None? && l in s.leases
    requires Budget(cfg, s, u, allowance) && Single(s, s.leases[l].task)
    ensures StillBudgeted(cfg, OnRejected(cfg, s, l, now), u, if s.leases[l].task == u then allowance + 1 else allowance)
  {
    assert LeaseKnown(s, l) && ActiveKnown(s, u, l);
    SoleAttempt(cfg, s, l);
    ReleaseBudget(cfg, s, l, u, allowance);
    SameQuarantined(Release(cfg, s, l), OnRejected(cfg, s, l, now));
  }

  lemma GrantBudget(cfg: Config, s: State, t: nat, e: nat, now: int, u: nat, allowance: nat)
    requires Inv(cfg, s, {}) && MayGrant(cfg, s, t, e, false, now) && Budget(cfg, s, u, allowance)
    ensures StillBudgeted(cfg, GrantLease(cfg, s, t, e, false, now), u, allowance)
  {
    assert Placed(cfg, s, t, {});
    SameQuarantined(s, GrantLease(cfg, s, t, e, false, now));
  }

  /** Event `event` is an executor's refusal of an attempt of `t`. */
  ghost predicate Rejects(s: State, event: Event, t: nat) {
    s.failure.None? && event.Rejected? && event.lease in s.leases && s.leases[event.lease].task == t
  }

  lemma StepBudget(cfg: Config, s: State, event: Event, u: nat, allowance: nat)
    requires Inv(cfg, s, {}) && s.failure.None? && Enabled(cfg, s, event) && !cfg.speculativeDuplicates
    requires Budget(cfg, s, u, allowance) && forall t :: Single(s, t)
    ensures StillBudgeted(cfg, Step(cfg, s, event), u, if Rejects(s, event, u) then allowance + 1 else allowance)
  {
    match event
    case Grant(t, e, speculative, now) => GrantBudget(cfg, s, t, e, now, u, allowance);
    case Heartbeat(l, now) => SameQuarantined(s, Step(cfg, s, event));
    case Finished(l, output, sinkThrows) =>
      if l in s.leases { assert Single(s, s.leases[l].task); FinishedBudget(cfg, s, l, output, sinkThrows, u, allowance); }
    case AttemptFailed(l, kind) =>
      if l in s.leases { assert Single(s, s.leases[l].task); EndedBudget(cfg, s, event, l, u, allowance); }
    case Rejected(l, now) =>
      if l in s.leases { assert Single(s, s.leases[l].task); RejectedBudget(cfg, s, l, now, u, allowance); }
    case LeaseEnded(l, now) =>
      if l in s.leases && Ended(s.leases[l], now) {
        assert Single(s, s.leases[l].task);
        EndedBudget(cfg, s, event, l, u, allowance);
      }
  }

  // ---- Whole runs ----

  /** How often an attempt of `t` was refused in the first `i` steps. */
  ghost function RejectionsOf(run: Run, t: nat, i: nat): nat
    requires i <= |run.events| && |run.states| == |run.events| + 1
  {
    if i == 0 then 0
    else RejectionsOf(run, t, i - 1) + if Rejects(run.states[i - 1], run.events[i - 1], t) then 1 else 0
  }

  lemma FreshBudget(cfg: Config, s: State, t: nat)
    requires cfg.Valid() && Untouched(cfg, s)
    ensures Budget(cfg, Start(cfg, s), t, 0)
  {
  }

  ghost predicate BudgetAt(cfg: Config, run: Run, i: nat, t: nat)
    requires |run.states| == |run.events| + 1
  {
    i <= |run.events| ==> StillBudgeted(cfg, run.states[i], t, RejectionsOf(run, t, i))
  }

  lemma FirstBudget(cfg: Config, run: Run, t: nat)
    requires IsRun(cfg, run)
    ensures BudgetAt(cfg, run, 0, t)
  {
    var s :| Untouched(cfg, s) && run.states[0] == Start(cfg, s);
    FreshBudget(cfg, s, t);
  }

  lemma {:induction false} BudgetThroughout(cfg: Config, run: Run, i: nat)
    requires SoundRun(cfg, run) && !cfg.speculativeDuplicates && i <= |run.events|
    requires forall t :: BudgetAt(cfg, run, 0, t)
    ensures forall t :: BudgetAt(cfg, run, i, t)
  {
    if i > 0 {
      BudgetThroughout(cfg, run, i - 1);
      forall t ensures BudgetAt(cfg, run, i, t) { BudgetStepAt(cfg, run, i - 1, t); }
    }
  }

  lemma BudgetStepAt(cfg: Config, run: Run, i: nat, u: nat)
    requires SoundRun(cfg, run) && !cfg.speculativeDuplicates && i < |run.events|
    requires forall t :: BudgetAt(cfg, run, i, t)
    ensures BudgetAt(cfg, run, i + 1, u)
  {
    var s := run.states[i];
    assert BudgetAt(cfg, run, i, u) && StepAt(cfg, run, i) && SoundAt(cfg, run, i);
    if s.failure.None? {
      forall t ensures Single(s, t) { assert BudgetAt(cfg, run, i, t); }
      StepBudget(cfg, s, run.events[i], u, RejectionsOf(run, u, i));
    }
  }

  /** Without speculative duplicates, an uncommitted task of a build that has not failed has failed fewer
      than `maxAttempts` times, and no task is ever started more often than that plus one for each
      quarantined executor and each refusal. */
  lemma BoundedAttempts(cfg: Config, run: Run, i: nat, t: nat)
    requires IsRun(cfg, run) && !cfg.speculativeDuplicates && i < |run.states| && t < cfg.Tasks()
    ensures Shaped(cfg, run.states[i])
    ensures var task := run.states[i].tasks[t];
            && (run.states[i].failure.None? && task.phase != Committed ==> task.failedAttempts < cfg.maxAttempts[t])
            && task.attemptsStarted <= cfg.maxAttempts[t] + |Quarantined(run.states[i])| + RejectionsOf(run, t, i)
  {
    RunIsSound(cfg, run);
    assert SoundAt(cfg, run, i);
    forall u ensures BudgetAt(cfg, run, 0, u) { FirstBudget(cfg, run, u); }
    BudgetThroughout(cfg, run, i);
    assert BudgetAt(cfg, run, i, t);
  }

  // ---- All the grants of a run ----

  function Attempts(tasks: seq<Task>): nat {
    if tasks == [] then 0 else Attempts(tasks[..|tasks| - 1]) + tasks[|tasks| - 1].attemptsStarted
  }

  function Sum(values: seq<nat>): nat {
    if values == [] then 0 else Sum(values[..|values| - 1]) + values[|values| - 1]
  }

  /** Refusals of any of the first `n` tasks. */
  ghost function AllRejections(run: Run, n: nat, i: nat): nat
    requires i <= |run.events| && |run.states| == |run.events| + 1
  {
    if n == 0 then 0 else AllRejections(run, n - 1, i) + RejectionsOf(run, n - 1, i)
  }

  lemma {:induction false} SameAttempts(a: seq<Task>, b: seq<Task>)
    requires |a| == |b| && forall t :: 0 <= t < |a| ==> b[t].attemptsStarted == a[t].attemptsStarted
    ensures Attempts(b) == Attempts(a)
  {
    if a != [] {
      SameAttempts(a[..|a| - 1], b[..|a| - 1]);
    }
  }

  lemma {:induction false} OneMoreAttempt(a: seq<Task>, b: seq<Task>, g: nat)
    requires |a| == |b| && g < |a| && b[g].attemptsStarted == a[g].attemptsStarted + 1
    requires forall t :: 0 <= t < |a| && t != g ==> b[t].attemptsStarted == a[t].attemptsStarted
    ensures Attempts(b) == Attempts(a) + 1
  {
    var n := |a| - 1;
    if g == n { SameAttempts(a[..n], b[..n]); } else { OneMoreAttempt(a[..n], b[..n], g); }
  }

  ghost predicate SameStarts(s: State, r: State) {
    && |r.tasks| == |s.tasks|
    && forall t :: 0 <= t < |s.tasks| ==> r.tasks[t].attemptsStarted == s.tasks[t].attemptsStarted
  }

  lemma QuarantineStartsNothing(cfg: Config, origin: State, s: State, e: nat)
    requires Shaped(cfg, s) && e < cfg.Executors() && SameStarts(origin, s)
    ensures SameStarts(origin, Quarantine(cfg, s, e))
  {
  }

  lemma CountLossStartsNothing(cfg: Config, origin: State, s: State, l: nat, e: nat)
    requires Shaped(cfg, s) && e < cfg.Executors() && SameStarts(origin, s)
    ensures SameStarts(origin, CountLoss(cfg, s, l, e))
  {
    QuarantineStartsNothing(cfg, origin, RecordLoss(cfg, s, e), e);
  }

  lemma RetriesStartNothing(cfg: Config, origin: State, s: State, t: nat, e: nat)
    requires Shaped(cfg, s) && t < cfg.Tasks() && e < cfg.Executors() && SameStarts(origin, s)
    ensures SameStarts(origin, AttemptLost(cfg, s, t, e))
    ensures SameStarts(origin, Requeue(s, t))
  {
  }

  lemma HandlersStartNothing(cfg: Config, origin: State, s: State, l: nat, t: nat, e: nat)
    requires Shaped(cfg, s) && t < cfg.Tasks() && e < cfg.Executors() && SameStarts(origin, s)
    ensures SameStarts(origin, Quarantine(cfg, s, e))
    ensures SameStarts(origin, CountLoss(cfg, s, l, e))
    ensures SameStarts(origin, AttemptLost(cfg, s, t, e))
    ensures SameStarts(origin, Requeue(s, t))
  {
    QuarantineStartsNothing(cfg, origin, s, e);
    CountLossStartsNothing(cfg, origin, s, l, e);
    RetriesStartNothing(cfg, origin, s, t, e);
  }

  lemma SuccessStartsNothing(cfg: Config, origin: State, s: State, l: nat, lease: Lease, output: AttemptOutput, throws: bool)
    requires Shaped(cfg, s) && lease.task < cfg.Tasks() && lease.executor < cfg.Executors() && SameStarts(origin, s)
    ensures SameStarts(origin, VerifiedSuccess(cfg, s, l, lease, output, throws))
  {
    CommitStartsNothing(cfg, origin, NoteRecovery(cfg, s, l, lease.executor), lease, output, throws);
    hide Commit;
  }

  lemma CommitStartsNothing(cfg: Config, origin: State, s: State, lease: Lease, output: AttemptOutput, throws: bool)
    requires Shaped(cfg, s) && lease.task < cfg.Tasks() && lease.executor < cfg.Executors() && SameStarts(origin, s)
    ensures SameStarts(origin, Commit(cfg, s, lease, output, throws))
  {
  }

  lemma ReleasesStartNothing(cfg: Config, s: State, l: nat, now: int)
    requires Shaped(cfg, s) && l in s.leases && s.leases[l].executor < cfg.Executors()
    ensures var released := Release(cfg, s, l);
            && SameStarts(s, released)
            && SameStarts(s, Decline(cfg, released, s.leases[l].executor, now))
            && SameStarts(s, CountEnding(released, s.leases[l], now))
            && SameStarts(s, CountInvalid(released))
  {
  }

  lemma EndStartsNothing(cfg: Config, s: State, event: Event, l: nat)
    requires Shaped(cfg, s) && s.failure.None? && l in s.leases
    requires event.AttemptFailed? || event.Rejected? || (event.LeaseEnded? && Ended(s.leases[l], event.now))
    requires event.lease == l
    ensures SameStarts(s, Step(cfg, s, event))
  {
    ReleasesStartNothing(cfg, s, l, if event.AttemptFailed? then 0 else event.now);
    hide SameStarts, Quarantine, CountLoss, AttemptLost, Requeue, GrantLease, OnHeartbeat, OnFinished;
    var Lease(t, e, _, _, _, _, _, _) := s.leases[l];
    var released := Release(cfg, s, l);
    if event.Rejected? {
      HandlersStartNothing(cfg, s, Decline(cfg, released, e, event.now), l, t, e);
    } else if event.LeaseEnded? {
      var noted := CountEnding(released, s.leases[l], event.now);
      HandlersStartNothing(cfg, s, noted, l, t, e);
      HandlersStartNothing(cfg, s, CountLoss(cfg, noted, l, e), l, t, e);
    } else if event.kind.InvalidResult? {
      HandlersStartNothing(cfg, s, CountInvalid(released), l, t, e);
      HandlersStartNothing(cfg, s, Quarantine(cfg, CountInvalid(released), e), l, t, e);
    } else {
      HandlersStartNothing(cfg, s, released, l, t, e);
      HandlersStartNothing(cfg, s, CountLoss(cfg, released, l, e), l, t, e);
    }
  }

  lemma FinishStartsNothing(cfg: Config, s: State, l: nat, output: AttemptOutput, throws: bool)
    requires Shaped(cfg, s) && s.failure.None? && l in s.leases
    ensures SameStarts(s, OnFinished(cfg, s, l, output, throws))
  {
    var lease := s.leases[l];
    var released := ReleaseFinished(cfg, s, l);
    assert SameStarts(s, released);
    match VerdictOf(cfg, s, l, output)
    case Invalid =>
      HandlersStartNothing(cfg, s, CountInvalid(released), l, lease.task, lease.executor);
      HandlersStartNothing(cfg, s, Quarantine(cfg, CountInvalid(released), lease.executor), l, lease.task, lease.executor);
    case Success(_) => SuccessStartsNothing(cfg, s, released, l, lease, output, throws);
    case Permanent =>
    case Retryable => HandlersStartNothing(cfg, s, released, l, lease.task, lease.executor);
  }

  lemma OnlyGrantsStart(cfg: Config, s: State, event: Event)
    requires Shaped(cfg, s) && Enabled(cfg, s, event)
    ensures var r := Step(cfg, s, event);
            Attempts(r.tasks) == Attempts(s.tasks) + if event.Grant? then 1 else 0
  {
    var r := Step(cfg, s, event);
    if event.Grant? {
      OneMoreAttempt(s.tasks, r.tasks, event.task);
    } else {
      if s.failure.None? && event.lease in s.leases && !event.Heartbeat? {
        if event.Finished? {
          FinishStartsNothing(cfg, s, event.lease, event.output, event.sinkThrows);
        } else if event.LeaseEnded? ==> Ended(s.leases[event.lease], event.now) {
          EndStartsNothing(cfg, s, event, event.lease);
        }
      }
      SameAttempts(s.tasks, r.tasks);
    }
  }

  function Grants(events: seq<Event>): nat {
    if events == [] then 0
    else Grants(events[..|events| - 1]) + if events[|events| - 1].Grant? then 1 else 0
  }

  function Refusals(events: seq<Event>): nat {
    if events == [] then 0
    else Refusals(events[..|events| - 1]) + if events[|events| - 1].Rejected? then 1 else 0
  }

  lemma {:induction false} NothingStarted(tasks: seq<Task>)
    requires forall t :: 0 <= t < |tasks| ==> tasks[t].attemptsStarted == 0
    ensures Attempts(tasks) == 0
  {
    if tasks != [] { NothingStarted(tasks[..|tasks| - 1]); }
  }

  lemma {:induction false} GrantsAreAttempts(cfg: Config, run: Run, i: nat)
    requires IsRun(cfg, run) && i <= |run.events|
    ensures Grants(run.events[..i]) == Attempts(run.states[i].tasks)
  {
    if i == 0 {
      var s :| Untouched(cfg, s) && run.states[0] == Start(cfg, s);
      NothingStarted(run.states[0].tasks);
    } else {
      GrantsAreAttempts(cfg, run, i - 1);
      assert StepAt(cfg, run, i - 1);
      assert run.events[..i][..i - 1] == run.events[..i - 1];
      OnlyGrantsStart(cfg, run.states[i - 1], run.events[i - 1]);
    }
  }

  /** Each refusal is of one task. */
  lemma {:induction false} RejectionsStep(run: Run, n: nat, i: nat)
    requires i < |run.events| && |run.states| == |run.events| + 1
    ensures AllRejections(run, n, i + 1) <= AllRejections(run, n, i) + if run.events[i].Rejected? then 1 else 0
    ensures (forall t: nat :: t < n ==> !Rejects(run.states[i], run.events[i], t)) ==>
              AllRejections(run, n, i + 1) == AllRejections(run, n, i)
  {
    if n > 0 { RejectionsStep(run, n - 1, i); }
  }

  lemma {:induction false} RejectionsAreRefusals(run: Run, n: nat, i: nat)
    requires i <= |run.events| && |run.states| == |run.events| + 1
    ensures AllRejections(run, n, i) <= Refusals(run.events[..i])
  {
    if i == 0 {
      NoRejectionsYet(run, n);
    } else {
      RejectionsAreRefusals(run, n, i - 1);
      RejectionsStep(run, n, i - 1);
      assert run.events[..i][..i - 1] == run.events[..i - 1];
    }
  }

  lemma {:induction false} NoRejectionsYet(run: Run, n: nat)
    requires |run.states| == |run.events| + 1
    ensures AllRejections(run, n, 0) == 0
  {
    if n > 0 { NoRejectionsYet(run, n - 1); }
  }

  lemma OneMore(n: nat, q: nat)
    ensures (n + 1) * q == n * q + q
  {
  }

  lemma {:induction false} AttemptsAreBounded(cfg: Config, run: Run, i: nat, tasks: seq<Task>, q: nat)
    requires |run.states| == |run.events| + 1 && i <= |run.events| && |tasks| <= |cfg.maxAttempts|
    requires forall t :: 0 <= t < |tasks| ==>
               tasks[t].attemptsStarted <= cfg.maxAttempts[t] + q + RejectionsOf(run, t, i)
    ensures Attempts(tasks) <= Sum(cfg.maxAttempts[..|tasks|]) + |tasks| * q + AllRejections(run, |tasks|, i)
  {
    if tasks != [] {
      var n := |tasks| - 1;
      AttemptsAreBounded(cfg, run, i, tasks[..n], q);
      assert cfg.maxAttempts[..n + 1][..n] == cfg.maxAttempts[..n];
      hide RejectionsOf;
      assert (n + 1) * q == n * q + q by { OneMore(n, q); }
    }
  }

  lemma QuarantinedAtMostAll(cfg: Config, s: State)
    requires Shaped(cfg, s)
    ensures |Quarantined(s)| <= cfg.Executors()
  {
    SubsetIsNotLarger(Quarantined(s), Below(cfg.Executors()));
  }

  /** A build without speculative duplicates ends: it can make only so many grants, one more for each
      refusal. */
  lemma GrantsAreBounded(cfg: Config, run: Run)
    requires IsRun(cfg, run) && !cfg.speculativeDuplicates
    ensures Grants(run.events) <= Sum(cfg.maxAttempts) + cfg.Tasks() * cfg.Executors() + Refusals(run.events)
  {
    var n := |run.events|;
    var s := Last(run);
    GrantsAreAttempts(cfg, run, n);
    assert run.events[..n] == run.events;
    InvThroughout(cfg, run, n);
    QuarantinedAtMostAll(cfg, s);
    forall t | 0 <= t < |s.tasks|
      ensures s.tasks[t].attemptsStarted <= cfg.maxAttempts[t] + cfg.Executors() + RejectionsOf(run, t, n)
    {
      BoundedAttempts(cfg, run, n, t);
    }
    AttemptsAreBounded(cfg, run, n, s.tasks, cfg.Executors());
    assert cfg.maxAttempts[..|s.tasks|] == cfg.maxAttempts;
    RejectionsAreRefusals(run, |s.tasks|, n);
  }
}
