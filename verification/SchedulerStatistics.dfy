/** What the statistics and the incidents of a build say, by the events of its run (scheduler_run.cpp, build_outcome.hpp). */
module SchedulerStatistics {
  import opened ResultVerification
  import opened SchedulerState
  import opened SchedulerSteps
  import opened SchedulerInvariant
  import opened SchedulerResume
  import opened SchedulerRuns
  import opened SchedulerHistory
  import opened SchedulerFailures
  import opened Sorting

  datatype Counter =
    | CommittedTasks
    | StartedAttempts
    | StartedDuplicates
    | Retries
    | ExpiredLeases
    | PassedDeadlines
    | InvalidResults
    | RefusedLeases
    | DiscardedDuplicates
    | ResumedTasks

  function Reading(stats: Stats, c: Counter): nat {
    match c
    case CommittedTasks => stats.committed
    case StartedAttempts => stats.attemptsStarted
    case StartedDuplicates => stats.speculativeAttempts
    case Retries => stats.retries
    case ExpiredLeases => stats.leasesExpired
    case PassedDeadlines => stats.deadlinesExceeded
    case InvalidResults => stats.invalidResults
    case RefusedLeases => stats.leasesRejected
    case DiscardedDuplicates => stats.duplicatesDiscarded
    case ResumedTasks => stats.resumed
  }

  /** The event is one of those the counter counts. */
  ghost predicate Ticks(cfg: Config, s: State, event: Event, c: Counter)
    requires Shaped(cfg, s)
  {
    match c
    case CommittedTasks => ReportsSuccess(cfg, s, event) && s.leases[event.lease].task !in s.done && !event.sinkThrows
    case StartedAttempts => s.failure.None? && event.Grant?
    case StartedDuplicates => s.failure.None? && event.Grant? && event.speculative
    case Retries =>
      FailsLast(cfg, s, event)
      && s.tasks[s.leases[event.lease].task].failedAttempts + 1 < cfg.maxAttempts[s.leases[event.lease].task]
    case ExpiredLeases =>
      Counts(s, event) && event.LeaseEnded? && s.leases[event.lease].expiresAt <= event.now < s.leases[event.lease].deadlineAt
    case PassedDeadlines => Counts(s, event) && event.LeaseEnded? && s.leases[event.lease].deadlineAt <= event.now
    case InvalidResults =>
      Counts(s, event) && if event.Finished? then !Passes(cfg, s, event.lease, event.output)
                          else event.AttemptFailed? && event.kind.InvalidResult?
    case RefusedLeases => Counts(s, event) && event.Rejected?
    case DiscardedDuplicates =>
      ReportsSuccess(cfg, s, event) && s.leases[event.lease].task in s.done
      && event.output.result.outputDigest == s.tasks[s.leases[event.lease].task].committedDigest
    case ResumedTasks => false
  }

  /** The event brings a verified success that contradicts the committed one. */
  ghost predicate Conflicts(cfg: Config, s: State, event: Event)
    requires Shaped(cfg, s)
  {
    ReportsSuccess(cfg, s, event) && s.leases[event.lease].task in s.done
    && event.output.result.outputDigest != s.tasks[s.leases[event.lease].task].committedDigest
  }

  /** Who committed the task, and who contradicts it. */
  function IncidentOf(cfg: Config, s: State, event: Event): Incident
    requires Shaped(cfg, s) && event.Finished? && event.lease in s.leases
  {
    var lease := s.leases[event.lease];
    var task := s.tasks[lease.task];
    Incident(lease.task, RecordOf(task),
             Commitment(lease.attempt, cfg.executorIds[lease.executor], event.output.result.outputDigest))
  }

  ghost predicate CounterStep(cfg: Config, s: State, event: Event, r: State, c: Counter)
    requires Shaped(cfg, s)
  {
    Reading(r.stats, c) == Reading(s.stats, c) + if Ticks(cfg, s, event, c) then 1 else 0
  }

  ghost predicate IncidentStep(cfg: Config, s: State, event: Event, r: State)
    requires Shaped(cfg, s)
  {
    r.incidents == if Conflicts(cfg, s, event) then s.incidents + [IncidentOf(cfg, s, event)] else s.incidents
  }

  lemma NotedCounts(cfg: Config, s: State, event: Event, c: Counter)
    requires Shaped(cfg, s) && FailsAttempt(cfg, s, event) && !c.Retries?
    ensures Reading(Noted(cfg, s, event), c) == Reading(s.stats, c) + if Ticks(cfg, s, event, c) then 1 else 0
    ensures Noted(cfg, s, event).retries == s.stats.retries
  {
    if event.Finished? {
      VerdictIsExact(cfg.hashing, cfg.graph.nodes[s.leases[event.lease].task].taskId, s.leases[event.lease].attempt, event.output);
    }
    NotBoth(cfg, s, event);
    hide Verified;
  }

  lemma RetryCounts(cfg: Config, s: State, event: Event, q: State, r: State)
    requires Shaped(cfg, s) && FailsAttempt(cfg, s, event) && |q.tasks| == |s.tasks| == |cfg.maxAttempts|
    requires var t := s.leases[event.lease].task;
             && event.lease in s.tasks[t].active && (t in s.done <==> s.tasks[t].phase == Committed) && t !in s.ready
             && (s.tasks[t].active == {event.lease} <==>
                   forall k :: k in s.leases && s.leases[k].task == t ==> k == event.lease)
             && q.tasks[t].active == s.tasks[t].active - {event.lease} && SameCounts(q.tasks[t], s.tasks[t])
             && AsFailed(cfg, q, r, t, s.leases[event.lease].executor)
    ensures r.stats.retries == q.stats.retries + if Ticks(cfg, s, event, Retries) then 1 else 0
  {
    var t := s.leases[event.lease].task;
    assert s.tasks[t].active - {event.lease} == {} <==> s.tasks[t].active == {event.lease};
    hide FailsAttempt;
  }

  lemma FailingCounts(cfg: Config, s: State, event: Event, c: Counter)
    requires Inv(cfg, s, {}) && FailsAttempt(cfg, s, event)
    ensures CounterStep(cfg, s, event, Step(cfg, s, event), c) && IncidentStep(cfg, s, event, Step(cfg, s, event))
  {
    assert Counts(s, event) && Shaped(cfg, s);
    hide Step, FailsAttempt, Inv, AsReleased, AsQuarantined, AsFailed, Noted, Ticks;
    var p, q := FailingStep(cfg, s, event);
    OthersRun(cfg, s, event, p, q);
    InvParts(cfg, s, event);
    OnlyLease(s, event.lease);
    SameBefore(s, event, p, q);
    RetryCounts(cfg, s, event, q, Step(cfg, s, event));
    NotedCounts(cfg, s, event, if c.Retries? then CommittedTasks else c);
    CountsAlong(cfg, s, event, p, q, Step(cfg, s, event), c);
  }

  lemma CountsAlong(cfg: Config, s: State, event: Event, p: State, q: State, r: State, c: Counter)
    requires Shaped(cfg, s) && FailsAttempt(cfg, s, event) && |q.tasks| == |p.tasks| == |s.tasks| == |cfg.maxAttempts|
    requires AsReleased(s, p, event.lease) && AsQuarantined(p, q, s.leases[event.lease].executor)
    requires AsFailed(cfg, q, r, s.leases[event.lease].task, s.leases[event.lease].executor)
    ensures Reading(r.stats, c) == if c.Retries? then r.stats.retries else Reading(p.stats, c)
    ensures q.stats.retries == p.stats.retries && IncidentStep(cfg, s, event, r)
  {
    NotBoth(cfg, s, event);
    hide FailsAttempt, ReportsPermanent, ReportsSuccess;
  }

  lemma CommitCounts(cfg: Config, p: State, lease: Lease, output: AttemptOutput, throws: bool)
    requires Shaped(cfg, p) && lease.task < cfg.Tasks() && lease.executor < cfg.Executors() && lease.task !in p.sink
    ensures var r := Commit(cfg, p, lease, output, throws);
            && r.incidents == p.incidents
            && r.stats == p.stats.(committed := p.stats.committed + if throws then 0 else 1)
  {
  }

  /** What a verified success adds to the statistics and the incidents. */
  ghost predicate SuccessNoted(cfg: Config, s: State, event: Event, r: State)
    requires Shaped(cfg, s) && event.Finished? && event.lease in s.leases
  {
    var t := s.leases[event.lease].task;
    var same := event.output.result.outputDigest == s.tasks[t].committedDigest;
    && r.incidents == (if t in s.done && !same then s.incidents + [IncidentOf(cfg, s, event)] else s.incidents)
    && r.stats == if t !in s.done then s.stats.(committed := s.stats.committed + if event.sinkThrows then 0 else 1)
                  else if same then s.stats.(duplicatesDiscarded := s.stats.duplicatesDiscarded + 1)
                  else s.stats
  }

  lemma SuccessIsNoted(cfg: Config, s: State, event: Event)
    requires Inv(cfg, s, {}) && ReportsSuccess(cfg, s, event)
    ensures SuccessNoted(cfg, s, event, Step(cfg, s, event))
  {
    var l := event.lease;
    var t, lease := s.leases[l].task, s.leases[l];
    VerdictIsExact(cfg.hashing, cfg.graph.nodes[t].taskId, lease.attempt, event.output);
    assert Placed(cfg, s, t, {}) && LeaseKnown(s, l);
    hide Verified, Inv, LeaseViews;
    NotedBySuccess(cfg, s, event);
    hide VerifiedSuccess, ReleaseFinished;
  }

  lemma NotedBySuccess(cfg: Config, s: State, event: Event)
    requires Shaped(cfg, s) && s.failure.None? && event.Finished? && event.lease in s.leases
    requires var t := s.leases[event.lease].task; (t in s.done <==> s.tasks[t].phase == Committed) && (t !in s.done ==> t !in s.sink)
    ensures var l := event.lease;
            SuccessNoted(cfg, s, event, VerifiedSuccess(cfg, ReleaseFinished(cfg, s, l), l, s.leases[l], event.output, event.sinkThrows))
  {
    var l := event.lease;
    var noted := NoteRecovery(cfg, ReleaseFinished(cfg, s, l), l, s.leases[l].executor);
    if s.leases[l].task !in s.done { CommitCounts(cfg, noted, s.leases[l], event.output, event.sinkThrows); }
    hide Commit;
  }

  lemma SuccessCounts(cfg: Config, s: State, event: Event, c: Counter)
    requires Inv(cfg, s, {}) && ReportsSuccess(cfg, s, event)
    ensures CounterStep(cfg, s, event, Step(cfg, s, event), c) && IncidentStep(cfg, s, event, Step(cfg, s, event))
  {
    assert Shaped(cfg, s);
    hide Step, FailsAttempt, Inv, Verified, ReportsPermanent;
    SuccessIsNoted(cfg, s, event);
    NotBoth(cfg, s, event);
  }

  lemma ReturnedCounts(cfg: Config, s: State, event: Event, c: Counter)
    requires Inv(cfg, s, {}) && Counts(s, event) && event.Finished?
    requires !FailsAttempt(cfg, s, event) && !ReportsSuccess(cfg, s, event)
    ensures CounterStep(cfg, s, event, Step(cfg, s, event), c) && IncidentStep(cfg, s, event, Step(cfg, s, event))
  {
    var t := s.leases[event.lease].task;
    VerdictIsExact(cfg.hashing, cfg.graph.nodes[t].taskId, s.leases[event.lease].attempt, event.output);
    assert Placed(cfg, s, t, {});
    hide Quarantine, AttemptLost, VerifiedSuccess, Inv, Verified;
  }

  lemma QuietCounts(cfg: Config, s: State, event: Event, c: Counter)
    requires Inv(cfg, s, {}) && s.failure.None? && Enabled(cfg, s, event) && !event.Finished? && !FailsAttempt(cfg, s, event)
    ensures CounterStep(cfg, s, event, Step(cfg, s, event), c) && IncidentStep(cfg, s, event, Step(cfg, s, event))
  {
    hide OnFinished, Inv;
  }

  lemma NothingTicks(cfg: Config, s: State, event: Event, c: Counter)
    requires Shaped(cfg, s) && !Counts(s, event) && !event.Grant?
    ensures CounterStep(cfg, s, event, s, c) && IncidentStep(cfg, s, event, s)
  {
  }

  /** One event moves each counter as its kind says, and adds an incident exactly when it brings a contradiction. */
  lemma StepOnCounter(cfg: Config, s: State, event: Event, c: Counter)
    requires Inv(cfg, s, {}) && s.failure.None? && Enabled(cfg, s, event)
    ensures CounterStep(cfg, s, event, Step(cfg, s, event), c) && IncidentStep(cfg, s, event, Step(cfg, s, event))
  {
    hide Step, CounterStep, IncidentStep;
    if FailsAttempt(cfg, s, event) {
      FailingCounts(cfg, s, event, c);
    } else if ReportsSuccess(cfg, s, event) {
      SuccessCounts(cfg, s, event, c);
    } else if Counts(s, event) && event.Finished? {
      ReturnedCounts(cfg, s, event, c);
    } else if event.Finished? {
      IdleStep(cfg, s, event);
      hide FailsAttempt, ReportsSuccess;
      assert CounterStep(cfg, s, event, s, c) && IncidentStep(cfg, s, event, s) by { NothingTicks(cfg, s, event, c); }
    } else {
      QuietCounts(cfg, s, event, c);
    }
  }

  // ---- Whole runs ----

  ghost predicate TicksAt(cfg: Config, run: Run, i: nat, c: Counter) {
    && i < |run.events| && i < |run.states| && Shaped(cfg, run.states[i]) && run.states[i].failure.None?
    && Ticks(cfg, run.states[i], run.events[i], c)
  }

  /** How many of the first `n` events the counter counts. */
  ghost function Occurrences(cfg: Config, run: Run, n: nat, c: Counter): nat {
    if n == 0 then 0 else Occurrences(cfg, run, n - 1, c) + if TicksAt(cfg, run, n - 1, c) then 1 else 0
  }

  lemma CountedAt(cfg: Config, run: Run, i: nat, c: Counter)
    requires IsRun(cfg, run) && i < |run.events|
    ensures Shaped(cfg, run.states[i])
    ensures run.states[i].failure.None? ==>
              && CounterStep(cfg, run.states[i], run.events[i], run.states[i + 1], c)
              && IncidentStep(cfg, run.states[i], run.events[i], run.states[i + 1])
    ensures run.states[i].failure.Some? ==> run.states[i + 1] == run.states[i]
  {
    InvThroughout(cfg, run, i);
    assert StepAt(cfg, run, i);
    if run.states[i].failure.None? { StepOnCounter(cfg, run.states[i], run.events[i], c); }
  }

  lemma NothingCounted(cfg: Config, run: Run)
    requires IsRun(cfg, run)
    ensures run.states[0].stats == NO_STATS.(resumed := run.states[0].stats.resumed) && run.states[0].incidents == []
  {
    hide StepAt;
    var s :| Untouched(cfg, s) && run.states[0] == Start(cfg, s);
  }

  /** At every point of every run, each counter of the statistics is the number of events of its kind so far. */
  lemma {:induction false} StatisticsCount(cfg: Config, run: Run, i: nat, c: Counter)
    requires IsRun(cfg, run) && i < |run.states|
    ensures Reading(run.states[i].stats, c) == (if c.ResumedTasks? then run.states[0].stats.resumed else 0) + Occurrences(cfg, run, i, c)
  {
    hide IsRun, Ticks, IncidentStep;
    RunLength(cfg, run);
    if i == 0 {
      NothingCounted(cfg, run);
    } else {
      StatisticsCount(cfg, run, i - 1, c);
      CountedAt(cfg, run, i - 1, c);
    }
  }

  ghost predicate ConflictAt(cfg: Config, run: Run, i: nat) {
    && i < |run.events| && i < |run.states| && Shaped(cfg, run.states[i]) && run.states[i].failure.None?
    && Conflicts(cfg, run.states[i], run.events[i])
  }

  /** An incident is recorded exactly when a verified success contradicts the committed one, and the build has failed
      for that; it names both results. */
  lemma {:induction false} IncidentsAreConflicts(cfg: Config, run: Run, i: nat)
    requires IsRun(cfg, run) && i < |run.states|
    ensures run.states[i].incidents != [] ==> run.states[i].failure.Some? && run.states[i].failure.value.kind == DeterminismIncident
    ensures forall j :: 0 <= j < i && ConflictAt(cfg, run, j) ==>
              run.states[i].incidents == [IncidentOf(cfg, run.states[j], run.events[j])]
    ensures (forall j :: 0 <= j < i ==> !ConflictAt(cfg, run, j)) ==> run.states[i].incidents == []
  {
    hide IsRun, CounterStep, Conflicts;
    RunLength(cfg, run);
    NothingCounted(cfg, run);
    if i > 0 {
      IncidentsAreConflicts(cfg, run, i - 1);
      CountedAt(cfg, run, i - 1, Retries);
      if run.states[i - 1].failure.None? { ConflictFails(cfg, run, i - 1); }
    }
  }

  lemma ConflictFails(cfg: Config, run: Run, i: nat)
    requires IsRun(cfg, run) && i < |run.events| && run.states[i].failure.None?
    ensures Shaped(cfg, run.states[i])
    ensures Conflicts(cfg, run.states[i], run.events[i]) ==>
              run.states[i + 1].failure.Some? && run.states[i + 1].failure.value.kind == DeterminismIncident
  {
    hide IsRun;
    RunLength(cfg, run);
    FailsAt(cfg, run, i);
    if Conflicts(cfg, run.states[i], run.events[i]) {
      hide FailureStep;
      assert Cause(cfg, run.states[i], run.events[i], DeterminismIncident);
      CauseEnds(cfg, run.states[i], run.events[i], run.states[i + 1], DeterminismIncident);
    }
  }

  // ---- The list of quarantined executors ----

  ghost predicate ListStep(s: State, r: State) {
    && |r.executors| == |s.executors|
    && (forall e :: 0 <= e < |s.executors| && s.executors[e].quarantined ==> r.executors[e].quarantined)
    && if (exists e: nat :: NewlyQuarantined(s, r, e)) then
         exists e: nat :: NewlyQuarantined(s, r, e) && (forall x: nat :: NewlyQuarantined(s, r, x) ==> x == e)
                     && r.stats.quarantined == s.stats.quarantined + [e]
       else r.stats.quarantined == s.stats.quarantined
  }

  lemma StepOnList(cfg: Config, s: State, event: Event)
    requires Inv(cfg, s, {}) && s.failure.None? && Enabled(cfg, s, event)
    ensures ListStep(s, Step(cfg, s, event))
  {
    if FailsAttempt(cfg, s, event) {
      assert Counts(s, event) && Shaped(cfg, s);
      hide Step, FailsAttempt, Inv;
      var p, q := FailingStep(cfg, s, event);
      ListAlong(cfg, s, event, p, q, Step(cfg, s, event));
    } else {
      OthersListNone(cfg, s, event);
    }
  }

  lemma ListAlong(cfg: Config, s: State, event: Event, p: State, q: State, r: State)
    requires Shaped(cfg, s) && Counts(s, event) && |q.tasks| == |p.tasks| == |s.tasks| == |cfg.maxAttempts|
    requires AsReleased(s, p, event.lease) && AsQuarantined(p, q, s.leases[event.lease].executor)
    requires AsFailed(cfg, q, r, s.leases[event.lease].task, s.leases[event.lease].executor) && p.stats == Noted(cfg, s, event)
    ensures ListStep(s, r)
  {
    var e := s.leases[event.lease].executor;
    assert p.stats.quarantined == s.stats.quarantined;
    assert NewlyQuarantined(s, r, e) <==> NewlyQuarantined(p, q, e);
    forall x | x != e ensures !NewlyQuarantined(s, r, x) {}
    hide Noted;
  }

  lemma OthersListNone(cfg: Config, s: State, event: Event)
    requires Inv(cfg, s, {}) && s.failure.None? && Enabled(cfg, s, event) && !FailsAttempt(cfg, s, event)
    ensures ListStep(s, Step(cfg, s, event))
  {
    if EndsLease(s, event) {
      var p := EndingStep(cfg, s, event);
      hide Step, Inv, FailsAttempt, EndsLease;
    } else if !event.Grant? {
      IdleStep(cfg, s, event);
      hide Step, Inv, FailsAttempt;
    }
  }

  lemma ListedNext(s: State, r: State)
    requires ListStep(s, r) && Distinct(s.stats.quarantined)
    requires forall e: nat :: e in s.stats.quarantined <==> e < |s.executors| && s.executors[e].quarantined
    ensures Distinct(r.stats.quarantined)
    ensures forall e: nat :: e in r.stats.quarantined <==> e < |r.executors| && r.executors[e].quarantined
  {
    if x: nat :| NewlyQuarantined(s, r, x) {
      assert forall e :: e in r.stats.quarantined <==> e in s.stats.quarantined || e == x;
      forall e: nat ensures e in r.stats.quarantined <==> e < |r.executors| && r.executors[e].quarantined {
        if e != x { assert !NewlyQuarantined(s, r, e); }
      }
    } else {
      forall e: nat ensures e in r.stats.quarantined <==> e < |r.executors| && r.executors[e].quarantined {
        assert !NewlyQuarantined(s, r, e);
      }
    }
  }

  /** The statistics list exactly the quarantined executors, each once. */
  lemma {:induction false} QuarantinedAreListed(cfg: Config, run: Run, i: nat)
    requires IsRun(cfg, run) && i < |run.states|
    ensures Distinct(run.states[i].stats.quarantined)
    ensures forall e: nat :: e in run.states[i].stats.quarantined <==> e < |run.states[i].executors| && run.states[i].executors[e].quarantined
  {
    hide IsRun;
    RunLength(cfg, run);
    if i == 0 {
      NobodyListed(cfg, run);
    } else {
      QuarantinedAreListed(cfg, run, i - 1);
      ListedAt(cfg, run, i - 1);
      if run.states[i - 1].failure.None? { ListedNext(run.states[i - 1], run.states[i]); }
    }
  }

  lemma NobodyListed(cfg: Config, run: Run)
    requires IsRun(cfg, run)
    ensures run.states[0].stats.quarantined == []
    ensures forall e :: 0 <= e < |run.states[0].executors| ==> !run.states[0].executors[e].quarantined
  {
    hide StepAt;
    var s :| Untouched(cfg, s) && run.states[0] == Start(cfg, s);
  }

  lemma ListedAt(cfg: Config, run: Run, i: nat)
    requires IsRun(cfg, run) && i < |run.events|
    ensures run.states[i].failure.None? ==> ListStep(run.states[i], run.states[i + 1])
    ensures run.states[i].failure.Some? ==> run.states[i + 1] == run.states[i]
  {
    InvThroughout(cfg, run, i);
    assert StepAt(cfg, run, i);
    if run.states[i].failure.None? { StepOnList(cfg, run.states[i], run.events[i]); }
  }
}
