/** Why builds fail and tasks are tried again, over whole runs (scheduler_run.cpp, retry_policy.hpp). */
module SchedulerFailures {
  import opened Basics
  import opened ResultVerification
  import opened SchedulerState
  import opened SchedulerSteps
  import opened SchedulerInvariant
  import opened SchedulerResume
  import opened SchedulerRuns
  import opened SchedulerHistory

  // ---- One event ----

  /** The event reports a success that passes every check. */
  ghost predicate ReportsSuccess(cfg: Config, s: State, event: Event)
    requires Shaped(cfg, s)
  {
    Counts(s, event) && event.Finished? && Passes(cfg, s, event.lease, event.output) && event.output.result.status == Succeeded
  }

  /** The failed attempt was the only one of its task in flight, of a task that is not complete. */
  ghost predicate FailsLast(cfg: Config, s: State, event: Event)
    requires Shaped(cfg, s)
  {
    && FailsAttempt(cfg, s, event) && s.leases[event.lease].task !in s.done
    && forall k :: k in s.leases && s.leases[k].task == s.leases[event.lease].task ==> k == event.lease
  }

  /** Why an event fails the build: a failure not to be retried, the last failure the policy allows with nothing else of
      the task running, a success that contradicts the committed one, or a sink that refuses. */
  ghost predicate Cause(cfg: Config, s: State, event: Event, kind: FailureKind)
    requires Shaped(cfg, s)
  {
    && Counts(s, event)
    && var t := s.leases[event.lease].task;
       match kind
       case PermanentTaskFailure => ReportsPermanent(cfg, s, event)
       case RetriesExhausted => FailsLast(cfg, s, event) && s.tasks[t].failedAttempts + 1 >= cfg.maxAttempts[t]
       case DeterminismIncident =>
         ReportsSuccess(cfg, s, event) && t in s.done && event.output.result.outputDigest != s.tasks[t].committedDigest
       case CommitFailed => ReportsSuccess(cfg, s, event) && t !in s.done && event.sinkThrows
       case NoUsableExecutor => false
  }

  /** An event fails the build exactly for one of these causes, and for the task it is about. */
  ghost predicate FailureStep(cfg: Config, s: State, event: Event, r: State)
    requires Shaped(cfg, s)
  {
    && (forall kind, t :: r.failure == Some(Failure(kind, t)) <==>
          Cause(cfg, s, event, kind) && t == Some(s.leases[event.lease].task))
    && (FailsLast(cfg, s, event) && r.failure.None? ==>
          s.leases[event.lease].task in r.ready && s.leases[event.lease].task !in s.ready)
  }

  lemma OnlyLease(s: State, l: nat)
    requires LeaseViews(s) && l in s.leases && s.leases[l].task < |s.tasks|
    ensures s.tasks[s.leases[l].task].active == {l} <==>
            forall k :: k in s.leases && s.leases[k].task == s.leases[l].task ==> k == l
  {
    var t := s.leases[l].task;
    assert LeaseKnown(s, l);
    if s.tasks[t].active == {l} {
      forall k | k in s.leases && s.leases[k].task == t ensures k == l { assert LeaseKnown(s, k); }
    }
    if forall k :: k in s.leases && s.leases[k].task == t ==> k == l {
      forall k ensures k in s.tasks[t].active <==> k == l { assert ActiveKnown(s, t, k); }
    }
  }

  /** Quarantining the executor of one attempt leaves the other attempt of the task running. */
  lemma OthersRun(cfg: Config, s: State, event: Event, p: State, q: State)
    requires Inv(cfg, s, {}) && Counts(s, event) && |p.tasks| == |q.tasks| == |s.tasks|
    requires AsReleased(s, p, event.lease) && AsQuarantined(p, q, s.leases[event.lease].executor)
    ensures var t := s.leases[event.lease].task;
            q.tasks[t].active == s.tasks[t].active - {event.lease}
  {
    var l, t := event.lease, s.leases[event.lease].task;
    var gone := LeasesOn(p.leases, s.leases[l].executor);
    assert LeaseKnown(s, l);
    forall k | k in s.tasks[t].active - {l} ensures k !in gone { assert ActiveKnown(s, t, k) && Apart(s, l, k); }
    assert p.tasks[t].active == s.tasks[t].active - {l};
    assert p.tasks[t].active - gone == p.tasks[t].active;
  }

  lemma FailingFails(cfg: Config, s: State, event: Event)
    requires Inv(cfg, s, {}) && FailsAttempt(cfg, s, event)
    ensures FailureStep(cfg, s, event, Step(cfg, s, event))
  {
    assert Counts(s, event) && Shaped(cfg, s);
    hide Step, FailsAttempt, Inv, AsReleased, AsQuarantined, AsFailed, FailureStep;
    var p, q := FailingStep(cfg, s, event);
    OthersRun(cfg, s, event, p, q);
    InvParts(cfg, s, event);
    OnlyLease(s, event.lease);
    SameBefore(s, event, p, q);
    CountedFailure(cfg, s, event, q, Step(cfg, s, event));
  }

  lemma InvParts(cfg: Config, s: State, event: Event)
    requires Inv(cfg, s, {}) && FailsAttempt(cfg, s, event)
    ensures LeaseViews(s)
    ensures var t := s.leases[event.lease].task;
            event.lease in s.tasks[t].active && (t in s.done <==> s.tasks[t].phase == Committed) && t !in s.ready
  {
    assert LeaseKnown(s, event.lease) && Placed(cfg, s, s.leases[event.lease].task, {});
  }

  lemma SameBefore(s: State, event: Event, p: State, q: State)
    requires Counts(s, event) && s.leases[event.lease].task < |s.tasks| == |p.tasks| == |q.tasks|
    requires AsReleased(s, p, event.lease) && AsQuarantined(p, q, s.leases[event.lease].executor)
    ensures SameCounts(q.tasks[s.leases[event.lease].task], s.tasks[s.leases[event.lease].task])
  {
  }

  lemma CountedFailure(cfg: Config, s: State, event: Event, q: State, r: State)
    requires Shaped(cfg, s) && FailsAttempt(cfg, s, event) && |q.tasks| == |s.tasks|
    requires var t := s.leases[event.lease].task;
             && event.lease in s.tasks[t].active && (t in s.done <==> s.tasks[t].phase == Committed) && t !in s.ready
             && (s.tasks[t].active == {event.lease} <==>
                   forall k :: k in s.leases && s.leases[k].task == t ==> k == event.lease)
             && q.tasks[t].active == s.tasks[t].active - {event.lease} && SameCounts(q.tasks[t], s.tasks[t])
             && AsFailed(cfg, q, r, t, s.leases[event.lease].executor)
    ensures FailureStep(cfg, s, event, r)
  {
    var t := s.leases[event.lease].task;
    NotBoth(cfg, s, event);
    assert Counts(s, event);
    assert s.tasks[t].active - {event.lease} == {} <==> s.tasks[t].active == {event.lease};
    hide FailsAttempt, ReportsPermanent, ReportsSuccess;
  }

  /** A failed attempt reports neither a success nor a permanent failure. */
  lemma NotBoth(cfg: Config, s: State, event: Event)
    requires Shaped(cfg, s)
    ensures FailsAttempt(cfg, s, event) ==> !ReportsPermanent(cfg, s, event) && !ReportsSuccess(cfg, s, event)
    ensures !(ReportsPermanent(cfg, s, event) && ReportsSuccess(cfg, s, event))
  {
  }

  lemma SuccessFails(cfg: Config, s: State, event: Event)
    requires Inv(cfg, s, {}) && ReportsSuccess(cfg, s, event)
    ensures FailureStep(cfg, s, event, Step(cfg, s, event))
  {
    var l := event.lease;
    var t := s.leases[l].task;
    VerdictIsExact(cfg.hashing, cfg.graph.nodes[t].taskId, s.leases[l].attempt, event.output);
    hide Step, FailsAttempt, ReportsPermanent, Inv, FailureStep, SuccessOutcome, Verified;
    SuccessCommits(cfg, s, event);
    NotBoth(cfg, s, event);
    OutcomeFails(cfg, s, event, Step(cfg, s, event));
  }

  lemma OutcomeFails(cfg: Config, s: State, event: Event, r: State)
    requires Shaped(cfg, s) && ReportsSuccess(cfg, s, event) && !FailsAttempt(cfg, s, event) && !ReportsPermanent(cfg, s, event)
    requires SuccessOutcome(s, r, s.leases[event.lease].task, Reported(cfg, s, event), event.sinkThrows)
    ensures FailureStep(cfg, s, event, r)
  {
    hide FailsAttempt, ReportsPermanent;
  }

  lemma PermanentFails(cfg: Config, s: State, event: Event)
    requires Inv(cfg, s, {}) && ReportsPermanent(cfg, s, event)
    ensures FailureStep(cfg, s, event, Step(cfg, s, event))
  {
    var l := event.lease;
    var t := s.leases[l].task;
    VerdictIsExact(cfg.hashing, cfg.graph.nodes[t].taskId, s.leases[l].attempt, event.output);
    assert Placed(cfg, s, t, {});
    NotBoth(cfg, s, event);
    PermanentEnds(cfg, s, event);
    hide Step, FailsAttempt, ReportsSuccess, Inv;
  }

  lemma PermanentEnds(cfg: Config, s: State, event: Event)
    requires Shaped(cfg, s) && Counts(s, event) && event.Finished? && VerdictOf(cfg, s, event.lease, event.output).Permanent?
    requires s.tasks[s.leases[event.lease].task].phase != Committed
    ensures Step(cfg, s, event).failure == Some(Failure(PermanentTaskFailure, Some(s.leases[event.lease].task)))
  {
  }

  lemma OthersDoNotFail(cfg: Config, s: State, event: Event)
    requires Inv(cfg, s, {}) && s.failure.None? && Enabled(cfg, s, event)
    requires !FailsAttempt(cfg, s, event) && !ReportsSuccess(cfg, s, event) && !ReportsPermanent(cfg, s, event)
    ensures Step(cfg, s, event).failure.None?
  {
    if Counts(s, event) && event.Finished? {
      var t := s.leases[event.lease].task;
      VerdictIsExact(cfg.hashing, cfg.graph.nodes[t].taskId, s.leases[event.lease].attempt, event.output);
      assert Placed(cfg, s, t, {});
    }
    hide Quarantine, AttemptLost, VerifiedSuccess;
  }

  /** Every event fails the build exactly for one of the four causes; a failed attempt that was the last in flight and
      does not fail the build puts its task back into the queue. */
  lemma StepOnFailure(cfg: Config, s: State, event: Event)
    requires Inv(cfg, s, {}) && s.failure.None? && Enabled(cfg, s, event)
    ensures FailureStep(cfg, s, event, Step(cfg, s, event))
  {
    if FailsAttempt(cfg, s, event) {
      FailingFails(cfg, s, event);
    } else if ReportsSuccess(cfg, s, event) {
      SuccessFails(cfg, s, event);
    } else if ReportsPermanent(cfg, s, event) {
      PermanentFails(cfg, s, event);
    } else {
      OthersDoNotFail(cfg, s, event);
      hide Step, FailsAttempt, ReportsSuccess, ReportsPermanent;
    }
  }

  // ---- Whole runs ----

  ghost predicate CauseAt(cfg: Config, run: Run, i: nat, kind: FailureKind, t: nat) {
    && i < |run.events| && i < |run.states| && Shaped(cfg, run.states[i])
    && Cause(cfg, run.states[i], run.events[i], kind) && run.states[i].leases[run.events[i].lease].task == t
  }

  lemma RunLength(cfg: Config, run: Run)
    requires IsRun(cfg, run)
    ensures |run.states| == |run.events| + 1 && cfg.Shaped()
  {
  }

  lemma FailsAt(cfg: Config, run: Run, i: nat)
    requires IsRun(cfg, run) && i < |run.events|
    ensures Shaped(cfg, run.states[i])
    ensures run.states[i].failure.None? ==> FailureStep(cfg, run.states[i], run.events[i], run.states[i + 1])
    ensures run.states[i].failure.Some? ==> run.states[i + 1] == run.states[i]
  {
    InvThroughout(cfg, run, i);
    assert StepAt(cfg, run, i);
    if run.states[i].failure.None? { StepOnFailure(cfg, run.states[i], run.events[i]); }
  }

  lemma {:induction false} FailureStands(cfg: Config, run: Run, i: nat, j: nat)
    requires IsRun(cfg, run) && i <= j < |run.states| && run.states[i].failure.Some?
    ensures run.states[j] == run.states[i]
  {
    hide IsRun, FailureStep, Shaped;
    RunLength(cfg, run);
    if i < j {
      FailureStands(cfg, run, i, j - 1);
      FailsAt(cfg, run, j - 1);
    }
  }

  lemma {:induction false} FailureHasCause(cfg: Config, run: Run, i: nat) returns (j: nat)
    requires IsRun(cfg, run) && i < |run.states| && run.states[i].failure.Some?
    ensures j < i && run.states[i].failure.value.task.Some?
    ensures CauseAt(cfg, run, j, run.states[i].failure.value.kind, run.states[i].failure.value.task.value)
  {
    hide IsRun, FailureStep, Cause, CauseAt, Shaped;
    RunLength(cfg, run);
    StartsSound(cfg, run);
    j := i - 1;
    FailsAt(cfg, run, j);
    if run.states[j].failure.Some? {
      j := FailureHasCause(cfg, run, j);
    } else {
      FailureComes(cfg, run, j);
    }
  }

  lemma StartsSound(cfg: Config, run: Run)
    requires IsRun(cfg, run)
    ensures run.states[0].failure.None?
  {
    hide StepAt;
  }

  lemma FailureComes(cfg: Config, run: Run, j: nat)
    requires j < |run.events| && |run.states| == |run.events| + 1 && Shaped(cfg, run.states[j])
    requires FailureStep(cfg, run.states[j], run.events[j], run.states[j + 1]) && run.states[j + 1].failure.Some?
    ensures run.states[j + 1].failure.value.task.Some?
    ensures CauseAt(cfg, run, j, run.states[j + 1].failure.value.kind, run.states[j + 1].failure.value.task.value)
  {
    hide Cause;
    var Failure(kind, t) := run.states[j + 1].failure.value;
    assert run.states[j + 1].failure == Some(Failure(kind, t));
  }

  /** A run fails for a reason and a task exactly when one of its events is such a cause. */
  lemma RunFailsExactly(cfg: Config, run: Run, kind: FailureKind, t: nat)
    requires IsRun(cfg, run)
    ensures Last(run).failure == Some(Failure(kind, Some(t))) <==> exists i :: CauseAt(cfg, run, i, kind, t)
    ensures Last(run).failure.Some? ==> Last(run).failure.value.task.Some?
  {
    hide IsRun, CauseAt;
    RunLength(cfg, run);
    if Last(run).failure.Some? { var j := FailureHasCause(cfg, run, |run.events|); }
    if i: nat :| CauseAt(cfg, run, i, kind, t) { CauseFails(cfg, run, i, kind, t); }
  }

  lemma CauseCounts(cfg: Config, s: State, event: Event, kind: FailureKind)
    requires Shaped(cfg, s) && Cause(cfg, s, event, kind)
    ensures Counts(s, event)
  {
  }

  lemma CauseEnds(cfg: Config, s: State, event: Event, r: State, kind: FailureKind)
    requires Shaped(cfg, s) && Counts(s, event) && FailureStep(cfg, s, event, r) && Cause(cfg, s, event, kind)
    ensures r.failure == Some(Failure(kind, Some(s.leases[event.lease].task)))
  {
    hide Cause, FailsLast;
  }

  lemma CauseFails(cfg: Config, run: Run, i: nat, kind: FailureKind, t: nat)
    requires IsRun(cfg, run) && CauseAt(cfg, run, i, kind, t)
    ensures Last(run).failure == Some(Failure(kind, Some(t)))
  {
    hide IsRun, Cause, FailureStep;
    RunLength(cfg, run);
    FailsAt(cfg, run, i);
    CauseCounts(cfg, run.states[i], run.events[i], kind);
    CauseEnds(cfg, run.states[i], run.events[i], run.states[i + 1], kind);
    FailureStands(cfg, run, i + 1, |run.events|);
  }

  // ---- Counting ----

  ghost predicate FailedAt(cfg: Config, run: Run, i: nat, t: nat) {
    && i < |run.events| && i < |run.states| && Shaped(cfg, run.states[i])
    && FailsAttempt(cfg, run.states[i], run.events[i]) && run.states[i].leases[run.events[i].lease].task == t
  }

  ghost predicate StartedAt(run: Run, i: nat, t: nat) {
    i < |run.events| && i < |run.states| && run.states[i].failure.None? && run.events[i].Grant? && run.events[i].task == t
  }

  ghost predicate BlamedAt(cfg: Config, run: Run, i: nat, t: nat, e: nat) {
    && i < |run.events| && i + 1 < |run.states| && Shaped(cfg, run.states[i]) && run.states[i].failure.None?
    && Blames(cfg, run.states[i], run.events[i], run.states[i + 1], t, e)
  }

  /** How often an attempt of `t` has failed in the first `n` steps. */
  ghost function Failures(cfg: Config, run: Run, n: nat, t: nat): nat {
    if n == 0 then 0 else Failures(cfg, run, n - 1, t) + if FailedAt(cfg, run, n - 1, t) then 1 else 0
  }

  /** How often an attempt of `t` was started. */
  ghost function Starts(run: Run, n: nat, t: nat): nat {
    if n == 0 then 0 else Starts(run, n - 1, t) + if StartedAt(run, n - 1, t) then 1 else 0
  }

  lemma AttemptsAt(cfg: Config, run: Run, i: nat, t: nat)
    requires IsRun(cfg, run) && i < |run.events| && t < cfg.Tasks()
    ensures Shaped(cfg, run.states[i]) && Shaped(cfg, run.states[i + 1])
    ensures run.states[i].failure.None? ==> AttemptStep(cfg, run.states[i], run.events[i], run.states[i + 1], t)
    ensures run.states[i].failure.Some? ==> run.states[i + 1] == run.states[i]
  {
    InvThroughout(cfg, run, i);
    InvThroughout(cfg, run, i + 1);
    assert StepAt(cfg, run, i);
    if run.states[i].failure.None? { StepOnAttempts(cfg, run.states[i], run.events[i], t); }
  }

  lemma StartsFresh(cfg: Config, run: Run, t: nat)
    requires IsRun(cfg, run) && t < cfg.Tasks()
    ensures t < |run.states[0].tasks|
    ensures run.states[0].tasks[t].failedAttempts == run.states[0].tasks[t].attemptsStarted == 0
    ensures run.states[0].tasks[t].avoid == {}
  {
    hide StepAt;
    var s :| Untouched(cfg, s) && run.states[0] == Start(cfg, s);
  }

  lemma CountsMore(cfg: Config, run: Run, i: nat, t: nat)
    requires IsRun(cfg, run) && i < |run.events| && t < cfg.Tasks()
    ensures t < |run.states[i].tasks| && t < |run.states[i + 1].tasks|
    ensures var before, after := run.states[i].tasks[t], run.states[i + 1].tasks[t];
            && after.attemptsStarted == before.attemptsStarted + (if StartedAt(run, i, t) then 1 else 0)
            && after.failedAttempts == before.failedAttempts + (if FailedAt(cfg, run, i, t) then 1 else 0)
            && forall e :: e in after.avoid <==> e in before.avoid || BlamedAt(cfg, run, i, t, e)
  {
    AttemptsAt(cfg, run, i, t);
    hide IsRun, Blames, Passes;
  }

  /** The counters of a task count what happened to it: the attempts started, and those that failed. */
  lemma {:induction false} AttemptsAreCounted(cfg: Config, run: Run, i: nat, t: nat)
    requires IsRun(cfg, run) && i < |run.states| && t < cfg.Tasks()
    ensures t < |run.states[i].tasks|
    ensures run.states[i].tasks[t].attemptsStarted == Starts(run, i, t)
    ensures run.states[i].tasks[t].failedAttempts == Failures(cfg, run, i, t)
  {
    hide IsRun, StartedAt, FailedAt, BlamedAt;
    RunLength(cfg, run);
    if i == 0 {
      StartsFresh(cfg, run, t);
    } else {
      AttemptsAreCounted(cfg, run, i - 1, t);
      CountsMore(cfg, run, i - 1, t);
    }
  }

  lemma OnceMore(cfg: Config, run: Run, i: nat, t: nat, e: nat)
    requires i > 0
    ensures (exists j :: 0 <= j < i && BlamedAt(cfg, run, j, t, e)) <==>
            (exists j :: 0 <= j < i - 1 && BlamedAt(cfg, run, j, t, e)) || BlamedAt(cfg, run, i - 1, t, e)
  {
    hide BlamedAt;
  }

  /** A task avoids exactly the executors that failed an attempt of it or were quarantined while they ran one. */
  lemma {:induction false} AvoidedIsBlamed(cfg: Config, run: Run, i: nat, t: nat, e: nat)
    requires IsRun(cfg, run) && i < |run.states| && t < cfg.Tasks()
    ensures t < |run.states[i].tasks|
    ensures e in run.states[i].tasks[t].avoid <==> exists j :: 0 <= j < i && BlamedAt(cfg, run, j, t, e)
  {
    hide IsRun, StartedAt, FailedAt, BlamedAt;
    RunLength(cfg, run);
    if i == 0 {
      StartsFresh(cfg, run, t);
    } else {
      AvoidedIsBlamed(cfg, run, i - 1, t, e);
      CountsMore(cfg, run, i - 1, t);
      OnceMore(cfg, run, i, t, e);
    }
  }

  /** A build gives up on retries only when the attempts of a task have failed as often as the policy allows. */
  lemma ExhaustedMeansFailed(cfg: Config, run: Run, t: nat)
    requires IsRun(cfg, run) && Last(run).failure == Some(Failure(RetriesExhausted, Some(t)))
    ensures t < cfg.Tasks() && t < |cfg.maxAttempts| && Failures(cfg, run, |run.events|, t) >= cfg.maxAttempts[t]
  {
    hide IsRun, FailsAttempt, FailureStep, ReportsPermanent, ReportsSuccess;
    RunLength(cfg, run);
    var j := FailureHasCause(cfg, run, |run.events|);
    AttemptsAreCounted(cfg, run, j, t);
    AttemptsAreCounted(cfg, run, j + 1, t);
    FailsAt(cfg, run, j);
    CauseFails(cfg, run, j, RetriesExhausted, t);
    AttemptsAreCounted(cfg, run, |run.events|, t);
    FailuresGrow(cfg, run, j + 1, |run.events|, t);
  }

  lemma {:induction false} FailuresGrow(cfg: Config, run: Run, i: nat, j: nat, t: nat)
    requires i <= j
    ensures Failures(cfg, run, i, t) <= Failures(cfg, run, j, t)
  {
    if i < j { FailuresGrow(cfg, run, i, j - 1, t); }
  }
}
