/**
 Theorems about whole runs: any resumed results, any executors, any order of grants and events.
 */
module SchedulerRuns {
  import opened Basics
  import opened ResultVerification
  import opened TaskGraphs
  import opened SchedulerState
  import opened SchedulerSteps
  import opened SchedulerInvariant
  import opened SchedulerResume

  /** A run: the states it passes through and the event between each two. */
  datatype Run = Run(events: seq<Event>, states: seq<State>)

  ghost predicate StepAt(cfg: Config, run: Run, i: nat)
    requires |run.states| == |run.events| + 1
  {
    i < |run.events| ==>
      && Shaped(cfg, run.states[i])
      && Enabled(cfg, run.states[i], run.events[i])
      && run.states[i + 1] == Step(cfg, run.states[i], run.events[i])
  }

  /** A run that starts, with some tasks possibly resumed, before anything was leased. */
  ghost predicate IsRun(cfg: Config, run: Run) {
    && cfg.Valid()
    && |run.states| == |run.events| + 1
    && (exists s :: Untouched(cfg, s) && run.states[0] == Start(cfg, s))
    && forall i :: StepAt(cfg, run, i)
  }

  function Last(run: Run): State
    requires run.states != []
  {
    run.states[|run.states| - 1]
  }

  /** At every point of every run that has not failed, all the views agree. */
  lemma {:induction false} InvThroughout(cfg: Config, run: Run, i: nat)
    requires IsRun(cfg, run) && i < |run.states|
    ensures Shaped(cfg, run.states[i])
    ensures run.states[i].failure.None? ==> Inv(cfg, run.states[i], {})
  {
    if i == 0 {
      var s :| Untouched(cfg, s) && run.states[0] == Start(cfg, s);
      StartEstablishesInv(cfg, s);
    } else {
      InvThroughout(cfg, run, i - 1);
      assert StepAt(cfg, run, i - 1);
      if run.states[i - 1].failure.None? {
        StepKeepsInv(cfg, run.states[i - 1], run.events[i - 1]);
      }
    }
  }

  ghost predicate SoundAt(cfg: Config, run: Run, i: nat) {
    i < |run.states| ==> Shaped(cfg, run.states[i]) && (run.states[i].failure.None? ==> Inv(cfg, run.states[i], {}))
  }

  /** A run seen through its steps and the invariant, without how it started. */
  ghost predicate SoundRun(cfg: Config, run: Run) {
    && |run.states| == |run.events| + 1
    && (forall i :: StepAt(cfg, run, i))
    && (forall i :: SoundAt(cfg, run, i))
  }

  lemma RunIsSound(cfg: Config, run: Run)
    requires IsRun(cfg, run)
    ensures SoundRun(cfg, run)
  {
    forall i: nat ensures SoundAt(cfg, run, i) {
      if i < |run.states| { InvThroughout(cfg, run, i); }
    }
  }

  /** In the words of the design: each task is in exactly one of four places, and no executor is over its slots. */
  lemma LoopHead(cfg: Config, run: Run, i: nat, t: nat)
    requires IsRun(cfg, run) && i < |run.states| && run.states[i].failure.None? && t < cfg.Tasks()
    ensures Shaped(cfg, run.states[i])
    ensures var s := run.states[i];
            var committed := t in s.done && s.tasks[t].phase == Committed;
            var leased := t !in s.done && s.tasks[t].active != {};
            var ready := t in s.ready && s.tasks[t].active == {} && cfg.graph.Unblocked(t, s.done);
            var waiting := t !in s.done && t !in s.ready && s.tasks[t].active == {} && !cfg.graph.Unblocked(t, s.done);
            && (committed || leased || ready || waiting)
            && !(committed && leased) && !(committed && ready) && !(committed && waiting)
            && !(leased && ready) && !(leased && waiting) && !(ready && waiting)
    ensures forall l :: l in run.states[i].tasks[t].active <==>
                        l in run.states[i].leases && run.states[i].leases[l].task == t
    ensures |run.states[i].tasks[t].active| <= 2
    ensures forall e :: 0 <= e < cfg.Executors() ==>
                          0 <= run.states[i].executors[e].active == |LeasesOn(run.states[i].leases, e)| <= cfg.slots[e]
  {
    InvThroughout(cfg, run, i);
    var s := run.states[i];
    assert Placed(cfg, s, t, {}) && AtMostTwo(s, t);
    forall l ensures l in s.tasks[t].active <==> l in s.leases && s.leases[l].task == t {
      assert ActiveKnown(s, t, l) && LeaseKnown(s, l);
    }
    forall e: nat | e < cfg.Executors() ensures 0 <= s.executors[e].active == |LeasesOn(s.leases, e)| <= cfg.slots[e] {
      assert SlotsAgree(cfg, s, e);
    }
  }

  // ---- Exactly once ----

  datatype TaskOutput = TaskOutput(task: nat, digest: Digest)

  /** The verified success an event reports, if it does. Only these events can commit. */
  function SuccessIn(cfg: Config, s: State, event: Event): Option<TaskOutput>
    requires Shaped(cfg, s)
  {
    if s.failure.None? && event.Finished? && event.lease in s.leases then
      match VerdictOf(cfg, s, event.lease, event.output)
      case Success(digest) => Some(TaskOutput(s.leases[event.lease].task, digest))
      case _ => None
    else None
  }

  /** Handlers other than a verified success leave commits alone. */
  ghost predicate SameCommits(s: State, r: State) {
    && r.done == s.done && r.sink == s.sink && |r.tasks| == |s.tasks|
    && forall t :: 0 <= t < |s.tasks| ==>
         && (r.tasks[t].phase == Committed <==> s.tasks[t].phase == Committed)
         && RecordOf(r.tasks[t]) == RecordOf(s.tasks[t])
  }

  lemma QuarantineSameCommits(cfg: Config, s: State, e: nat)
    requires Shaped(cfg, s) && e < cfg.Executors()
    ensures SameCommits(s, Quarantine(cfg, s, e)) && Quarantine(cfg, s, e).failure == s.failure
  {
  }

  lemma CountLossSameCommits(cfg: Config, s: State, l: nat, e: nat)
    requires Shaped(cfg, s) && e < cfg.Executors()
    ensures SameCommits(s, CountLoss(cfg, s, l, e)) && CountLoss(cfg, s, l, e).failure == s.failure
  {
  }

  lemma AttemptLostSameCommits(cfg: Config, origin: State, s: State, t: nat, e: nat)
    requires Shaped(cfg, s) && t < cfg.Tasks() && s.failure.None? && SameCommits(origin, s)
    ensures var r := AttemptLost(cfg, s, t, e);
            SameCommits(origin, r) && (r.failure.Some? ==> r.failure.value.kind == RetriesExhausted)
  {
  }

  lemma FinishedSameCommits(cfg: Config, s: State, l: nat, output: AttemptOutput, sinkThrows: bool)
    requires Shaped(cfg, s) && s.failure.None? && l in s.leases && !VerdictOf(cfg, s, l, output).Success?
    ensures var r := OnFinished(cfg, s, l, output, sinkThrows);
            SameCommits(s, r) && (r.failure.Some? ==> r.failure.value.kind in {RetriesExhausted, PermanentTaskFailure})
  {
    var lease := s.leases[l];
    var released := ReleaseFinished(cfg, s, l);
    var counted := CountInvalid(released);
    QuarantineSameCommits(cfg, counted, lease.executor);
    AttemptLostSameCommits(cfg, s, Quarantine(cfg, counted, lease.executor), lease.task, lease.executor);
    AttemptLostSameCommits(cfg, s, released, lease.task, lease.executor);
  }

  lemma FailedSameCommits(cfg: Config, s: State, l: nat, kind: AttemptFailureKind)
    requires Shaped(cfg, s) && s.failure.None? && l in s.leases
    ensures var r := OnFailed(cfg, s, l, kind);
            SameCommits(s, r) && (r.failure.Some? ==> r.failure.value.kind == RetriesExhausted)
  {
    var lease := s.leases[l];
    var released := Release(cfg, s, l);
    if kind.InvalidResult? {
      QuarantineSameCommits(cfg, CountInvalid(released), lease.executor);
      AttemptLostSameCommits(cfg, s, Quarantine(cfg, CountInvalid(released), lease.executor), lease.task, lease.executor);
    } else {
      CountLossSameCommits(cfg, released, l, lease.executor);
      AttemptLostSameCommits(cfg, s, CountLoss(cfg, released, l, lease.executor), lease.task, lease.executor);
    }
  }

  lemma LeaseEndedSameCommits(cfg: Config, s: State, l: nat, now: int)
    requires Shaped(cfg, s) && s.failure.None?
    ensures var r := OnLeaseEnded(cfg, s, l, now);
            SameCommits(s, r) && (r.failure.Some? ==> r.failure.value.kind == RetriesExhausted)
  {
    if l in s.leases && Ended(s.leases[l], now) {
      var lease := s.leases[l];
      var noted := CountEnding(Release(cfg, s, l), lease, now);
      CountLossSameCommits(cfg, noted, l, lease.executor);
      AttemptLostSameCommits(cfg, s, CountLoss(cfg, noted, l, lease.executor), lease.task, lease.executor);
    }
  }

  /** Any event that is not a verified success commits nothing, and fails the build for another reason. */
  lemma OtherEventsSameCommits(cfg: Config, s: State, event: Event)
    requires Inv(cfg, s, {}) && s.failure.None? && Enabled(cfg, s, event)
    requires SuccessIn(cfg, s, event).None?
    ensures SameCommits(s, Step(cfg, s, event))
    ensures var r := Step(cfg, s, event);
            r.failure.Some? ==> r.failure.value.kind in {RetriesExhausted, PermanentTaskFailure}
  {
    if event.Grant? {
      GrantApart(cfg, s, event.task, event.executor, event.speculative, event.now);
      hide Inv;
    } else if event.lease !in s.leases {
      UnknownLease(cfg, s, event);
      hide Step, Inv;
    } else {
      hide OnFinished, OnFailed, OnLeaseEnded, OnRejected, Inv;
      match event
      case Finished(l, output, sinkThrows) => FinishedSameCommits(cfg, s, l, output, sinkThrows);
      case AttemptFailed(l, kind) => FailedSameCommits(cfg, s, l, kind);
      case Rejected(l, now) => RejectedSameCommits(cfg, s, l, now);
      case LeaseEnded(l, now) => LeaseEndedSameCommits(cfg, s, l, now);
      case Heartbeat(l, now) =>
    }
  }

  /** An event about a lease that is not outstanding changes nothing. */
  lemma UnknownLease(cfg: Config, s: State, event: Event)
    requires Shaped(cfg, s) && !event.Grant? && event.lease !in s.leases
    ensures Step(cfg, s, event) == s
  {
  }

  lemma RejectedSameCommits(cfg: Config, s: State, l: nat, now: int)
    requires Shaped(cfg, s) && l in s.leases
    ensures SameCommits(s, OnRejected(cfg, s, l, now)) && OnRejected(cfg, s, l, now).failure == s.failure
  {
  }

  /** What a verified success of `t` may do: hand the whole result to the sink, find the same digest committed, or
      fail the build. The sink refuses it only by its own choice, never because the task was committed before. */
  ghost predicate SuccessOutcome(s: State, r: State, t: nat, result: CommittedResult, sinkThrows: bool) {
    var digest := result.output.result.outputDigest;
    && t < |s.tasks| == |r.tasks|
    && (forall u :: 0 <= u < |s.tasks| && u != t ==> RecordOf(r.tasks[u]) == RecordOf(s.tasks[u]))
    && (forall u :: 0 <= u < |s.tasks| && u != t ==> (r.tasks[u].phase == Committed <==> s.tasks[u].phase == Committed))
    && if t in s.done then
         && SameCommits(s, r)
         && (r.failure.None? <==> digest == s.tasks[t].committedDigest)
         && (r.failure.Some? ==> r.failure.value == Failure(DeterminismIncident, Some(t)))
       else if sinkThrows then
         SameCommits(s, r) && r.failure == Some(Failure(CommitFailed, Some(t)))
       else
         && r.failure.None? && r.done == s.done + {t}
         && r.tasks[t].phase == Committed && RecordOf(r.tasks[t]) == CommitmentOf(result)
         && t !in s.sink && r.sink == s.sink[t := result]
  }

  lemma CommitOutcome(cfg: Config, s: State, lease: Lease, output: AttemptOutput, sinkThrows: bool)
    requires Shaped(cfg, s) && lease.task < cfg.Tasks() && lease.executor < cfg.Executors()
    requires s.failure.None? && lease.task !in s.done && lease.task !in s.sink
    requires s.tasks[lease.task].phase == Leased && output.result.attempt == lease.attempt
    ensures SuccessOutcome(s, Commit(cfg, s, lease, output, sinkThrows), lease.task,
                           CommittedResult(output, cfg.executorIds[lease.executor]), sinkThrows)
  {
  }

  lemma ReleaseSameCommits(cfg: Config, s: State, l: nat)
    requires Shaped(cfg, s) && l in s.leases
    ensures var s1 := NoteRecovery(cfg, ReleaseFinished(cfg, s, l), l, s.leases[l].executor);
            && SameCommits(s, s1) && s1.failure == s.failure
            && s1.tasks[s.leases[l].task].phase == s.tasks[s.leases[l].task].phase
  {
  }

  /** The result an outstanding lease's event reports: its whole output, and who produced it. */
  function Reported(cfg: Config, s: State, event: Event): CommittedResult
    requires Shaped(cfg, s) && event.Finished? && event.lease in s.leases
  {
    CommittedResult(event.output, cfg.executorIds[s.leases[event.lease].executor])
  }

  lemma SuccessCommits(cfg: Config, s: State, event: Event)
    requires Inv(cfg, s, {}) && s.failure.None? && SuccessIn(cfg, s, event).Some?
    ensures SuccessOutcome(s, Step(cfg, s, event), SuccessIn(cfg, s, event).value.task, Reported(cfg, s, event), event.sinkThrows)
  {
    var t := SuccessIn(cfg, s, event).value.task;
    var lease := s.leases[event.lease];
    GateIsExact(cfg.hashing, cfg.graph.nodes[t].taskId, lease.attempt, event.output);
    LeasedOrCommitted(cfg, s, event.lease);
    assert Placed(cfg, s, t, {});
    var s1 := NoteRecovery(cfg, ReleaseFinished(cfg, s, event.lease), event.lease, lease.executor);
    ReleaseSameCommits(cfg, s, event.lease);
    if s.tasks[t].phase == Leased {
      CommitOutcome(cfg, s1, lease, event.output, event.sinkThrows);
    }
  }

  /** What one step does to the books of commits. */
  ghost predicate Booked(cfg: Config, s: State, event: Event, r: State)
    requires Shaped(cfg, s)
  {
    match SuccessIn(cfg, s, event)
    case Some(success) => SuccessOutcome(s, r, success.task, Reported(cfg, s, event), event.sinkThrows)
    case None =>
      && SameCommits(s, r)
      && (s.failure.Some? ==> r == s)
      && (s.failure.None? && r.failure.Some? ==> r.failure.value.kind in {RetriesExhausted, PermanentTaskFailure})
  }

  ghost predicate BookedAt(cfg: Config, run: Run, i: nat)
    requires |run.states| == |run.events| + 1
  {
    i < |run.events| ==>
      && Shaped(cfg, run.states[i])
      && Booked(cfg, run.states[i], run.events[i], run.states[i + 1])
      && (run.states[i].failure.Some? ==> run.states[i + 1] == run.states[i])
  }

  /** A run seen only through its books. */
  ghost predicate BookedRun(cfg: Config, run: Run) {
    && |run.states| == |run.events| + 1
    && Ledger(run.states[0].done, run.states[0])
    && run.states[0].failure.None?
    && forall i :: BookedAt(cfg, run, i)
  }

  lemma StepIsBooked(cfg: Config, run: Run, i: nat)
    requires IsRun(cfg, run)
    ensures BookedAt(cfg, run, i)
  {
    if i < |run.events| {
      assert StepAt(cfg, run, i);
      InvThroughout(cfg, run, i);
      if run.states[i].failure.None? {
        if SuccessIn(cfg, run.states[i], run.events[i]).Some? {
          SuccessCommits(cfg, run.states[i], run.events[i]);
        } else {
          OtherEventsSameCommits(cfg, run.states[i], run.events[i]);
        }
      }
    }
  }

  lemma RunIsBooked(cfg: Config, run: Run)
    requires IsRun(cfg, run)
    ensures BookedRun(cfg, run)
  {
    var s :| Untouched(cfg, s) && run.states[0] == Start(cfg, s);
    forall i ensures BookedAt(cfg, run, i) { StepIsBooked(cfg, run, i); }
  }

  /** The books of commits: the sink holds exactly what was completed since `before`, as the tasks' records say. */
  ghost predicate Ledger(before: set<nat>, s: State) {
    && before <= s.done && s.sink.Keys == s.done - before
    && (forall t :: t in s.done ==> t < |s.tasks| && s.tasks[t].phase == Committed)
    && (forall t :: t in s.sink ==> t < |s.tasks| && RecordOf(s.tasks[t]) == CommitmentOf(s.sink[t]))
  }

  lemma BookedKeepsLedger(cfg: Config, before: set<nat>, s: State, event: Event, r: State)
    requires Shaped(cfg, s) && Ledger(before, s) && Booked(cfg, s, event, r)
    ensures Ledger(before, r)
  {
  }

  lemma {:induction false} LedgerThroughout(cfg: Config, run: Run, i: nat)
    requires BookedRun(cfg, run) && i < |run.states|
    ensures Ledger(run.states[0].done, run.states[i])
  {
    if i > 0 {
      LedgerThroughout(cfg, run, i - 1);
      assert BookedAt(cfg, run, i - 1);
      BookedKeepsLedger(cfg, run.states[0].done, run.states[i - 1], run.events[i - 1], run.states[i]);
    }
  }

  /** Nothing committed is ever taken back or changed. */
  ghost predicate Keeps(s: State, r: State) {
    && |s.tasks| == |r.tasks|
    && (forall t :: t in s.done ==> t in r.done)
    && (forall t :: t in s.sink ==> t in r.sink && r.sink[t] == s.sink[t])
    && (forall t :: t in s.done && t < |s.tasks| ==> RecordOf(r.tasks[t]) == RecordOf(s.tasks[t]))
  }

  lemma BookedKeeps(cfg: Config, s: State, event: Event, r: State)
    requires Shaped(cfg, s) && Booked(cfg, s, event, r)
    ensures Keeps(s, r)
    ensures forall t :: t in r.sink && t !in s.sink ==>
              && SuccessIn(cfg, s, event) == Some(TaskOutput(t, r.sink[t].output.result.outputDigest))
              && r.sink[t] == Reported(cfg, s, event)
  {
  }

  lemma {:induction false} KeepsThroughout(cfg: Config, run: Run, i: nat, j: nat)
    requires BookedRun(cfg, run) && i <= j < |run.states|
    ensures Keeps(run.states[i], run.states[j])
    ensures run.states[i].failure.Some? ==> run.states[j] == run.states[i]
  {
    if i < j {
      KeepsThroughout(cfg, run, i, j - 1);
      assert BookedAt(cfg, run, j - 1);
      BookedKeeps(cfg, run.states[j - 1], run.events[j - 1], run.states[j]);
    }
  }

  /** Step `i` of the run reports a verified success of `t`. */
  ghost predicate SuccessAt(cfg: Config, run: Run, i: nat, t: nat, digest: Digest)
    requires |run.states| == |run.events| + 1
  {
    i < |run.events| && Shaped(cfg, run.states[i])
    && SuccessIn(cfg, run.states[i], run.events[i]) == Some(TaskOutput(t, digest))
  }

  /** `t` is in the sink after step `i` and at no moment before. */
  ghost predicate EntersSinkAt(run: Run, t: nat, i: nat) {
    forall j :: 0 <= j < |run.states| ==> (t in run.states[j].sink <==> i < j)
  }

  /** At step `i` the attempt behind an outstanding lease of `t` reported `result`, payloads and all: a success that
      passes every check of the gate, produced by the lease's executor. */
  ghost predicate ReportedAt(cfg: Config, run: Run, i: nat, t: nat, result: CommittedResult) {
    && i < |run.events| && i < |run.states| && Shaped(cfg, run.states[i]) && run.states[i].failure.None?
    && var s, event := run.states[i], run.events[i];
       && event.Finished? && event.lease in s.leases && s.leases[event.lease].task == t
       && result.output == event.output && result.executorId == cfg.executorIds[s.leases[event.lease].executor]
       && Verified(cfg.hashing, cfg.graph.nodes[t].taskId, s.leases[event.lease].attempt, event.output)
       && event.output.result.status == Succeeded
  }

  lemma SuccessIsReported(cfg: Config, run: Run, i: nat, t: nat, digest: Digest)
    requires |run.states| == |run.events| + 1 && SuccessAt(cfg, run, i, t, digest)
    ensures ReportedAt(cfg, run, i, t, Reported(cfg, run.states[i], run.events[i]))
  {
    var s, event := run.states[i], run.events[i];
    GateIsExact(cfg.hashing, cfg.graph.nodes[t].taskId, s.leases[event.lease].attempt, event.output);
  }

  lemma {:induction false} FirstInSink(cfg: Config, run: Run, t: nat, upTo: nat) returns (i: nat)
    requires BookedRun(cfg, run) && upTo < |run.states| && t in run.states[upTo].sink
    ensures SuccessAt(cfg, run, i, t, run.states[upTo].sink[t].output.result.outputDigest) && EntersSinkAt(run, t, i)
    ensures ReportedAt(cfg, run, i, t, run.states[upTo].sink[t])
  {
    assert upTo > 0;
    i := upTo - 1;
    assert BookedAt(cfg, run, i);
    BookedKeeps(cfg, run.states[i], run.events[i], run.states[upTo]);
    if t in run.states[i].sink {
      i := FirstInSink(cfg, run, t, i);
    } else {
      SuccessIsReported(cfg, run, i, t, run.states[upTo].sink[t].output.result.outputDigest);
      forall j: nat | j < |run.states| ensures t in run.states[j].sink <==> i < j {
        if j <= i { KeepsThroughout(cfg, run, j, i); } else { KeepsThroughout(cfg, run, upTo, j); }
      }
    }
  }

  /** Exactly once: a resumed task never reaches the sink, and every result in the sink entered it at one step, as
      the whole output that step reported of a verified success of its task. */
  lemma ExactlyOnce(cfg: Config, run: Run, t: nat)
    requires IsRun(cfg, run)
    ensures Last(run).sink.Keys == Last(run).done - run.states[0].done
    ensures t in Last(run).sink ==> t < |Last(run).tasks| && RecordOf(Last(run).tasks[t]) == CommitmentOf(Last(run).sink[t])
    ensures t in Last(run).sink ==>
              exists i :: SuccessAt(cfg, run, i, t, Last(run).sink[t].output.result.outputDigest)
                          && ReportedAt(cfg, run, i, t, Last(run).sink[t]) && EntersSinkAt(run, t, i)
  {
    RunIsBooked(cfg, run);
    LedgerThroughout(cfg, run, |run.events|);
    if t in Last(run).sink {
      var i := FirstInSink(cfg, run, t, |run.events|);
    }
  }

  lemma {:induction false} CommitFailureThroughout(cfg: Config, run: Run, i: nat)
    requires BookedRun(cfg, run) && i < |run.states|
    requires forall j :: 0 <= j < |run.events| && run.events[j].Finished? ==> !run.events[j].sinkThrows
    ensures run.states[i].failure.Some? ==> run.states[i].failure.value.kind != CommitFailed
  {
    if i > 0 {
      CommitFailureThroughout(cfg, run, i - 1);
      assert BookedAt(cfg, run, i - 1);
    }
  }

  /** Unless the sink itself throws, a build never fails to commit: "committed twice" cannot happen. */
  lemma CommitFailsOnlyIfSinkThrows(cfg: Config, run: Run)
    requires IsRun(cfg, run)
    requires forall j :: 0 <= j < |run.events| && run.events[j].Finished? ==> !run.events[j].sinkThrows
    ensures Last(run).failure.Some? ==> Last(run).failure.value.kind != CommitFailed
  {
    RunIsBooked(cfg, run);
    CommitFailureThroughout(cfg, run, |run.events|);
  }

  /** How `execute` recognises success. */
  ghost predicate HasSucceeded(cfg: Config, s: State) {
    s.failure.None? && s.leases == map[] && |s.done| == cfg.Tasks()
  }

  /** While a build has not failed, every verified success of a task had the committed digest. */
  lemma SuccessesAgree(cfg: Config, run: Run, i: nat, t: nat, digest: Digest)
    requires IsRun(cfg, run) && Last(run).failure.None? && SuccessAt(cfg, run, i, t, digest)
    ensures t < |Last(run).tasks| && t in Last(run).done && Last(run).tasks[t].committedDigest == digest
  {
    RunIsBooked(cfg, run);
    SuccessesAgreeBooked(cfg, run, i, t, digest);
  }

  lemma SuccessesAgreeBooked(cfg: Config, run: Run, i: nat, t: nat, digest: Digest)
    requires BookedRun(cfg, run) && Last(run).failure.None? && SuccessAt(cfg, run, i, t, digest)
    ensures t < |Last(run).tasks| && t in Last(run).done && Last(run).tasks[t].committedDigest == digest
  {
    assert BookedAt(cfg, run, i);
    KeepsThroughout(cfg, run, i + 1, |run.events|);
  }

  lemma AllDone(done: set<nat>, n: nat)
    requires |done| == n && forall t :: t in done ==> t < n
    ensures done == Below(n)
  {
    assert done <= Below(n);
    assert |Below(n) - done| == |Below(n)| - |done|;
  }

  /** A succeeded build has one result for every task and nothing left in flight. */
  lemma SuccessIsComplete(cfg: Config, run: Run, t: nat)
    requires IsRun(cfg, run) && HasSucceeded(cfg, Last(run)) && t < cfg.Tasks()
    ensures t in Last(run).done
    ensures t in run.states[0].done <==> t !in Last(run).sink
    ensures t < |Last(run).tasks| && Last(run).tasks[t].active == {}
  {
    InvThroughout(cfg, run, |run.events|);
    RunIsBooked(cfg, run);
    LedgerThroughout(cfg, run, |run.events|);
    AllDone(Last(run).done, cfg.Tasks());
    forall l ensures l !in Last(run).tasks[t].active { assert ActiveKnown(Last(run), t, l); }
  }

  // ---- Output does not depend on the schedule ----

  /** `digest` is an output the run saw for task `t`: resumed, or from a verified success. */
  ghost predicate Output(cfg: Config, run: Run, t: nat, digest: Digest)
    requires |run.states| == |run.events| + 1
  {
    || (t in run.states[0].done && t < |run.states[0].tasks| && run.states[0].tasks[t].committedDigest == digest)
    || exists i :: SuccessAt(cfg, run, i, t, digest)
  }

  lemma CommittedIsOutput(cfg: Config, run: Run, t: nat)
    requires IsRun(cfg, run) && HasSucceeded(cfg, Last(run)) && t < cfg.Tasks()
    ensures t < |Last(run).tasks| && Output(cfg, run, t, Last(run).tasks[t].committedDigest)
  {
    SuccessIsComplete(cfg, run, t);
    RunIsBooked(cfg, run);
    LedgerThroughout(cfg, run, |run.events|);
    KeepsThroughout(cfg, run, 0, |run.events|);
    ExactlyOnce(cfg, run, t);
  }

  /** If every output of a task has the same digest wherever it is produced, two succeeded builds of one
      graph commit the same digests, whatever their executors, slots, policies, event orders, losses and
      resumed tasks. */
  lemma ScheduleIndependence(cfgA: Config, a: Run, cfgB: Config, b: Run, t: nat)
    requires cfgA.graph == cfgB.graph
    requires IsRun(cfgA, a) && HasSucceeded(cfgA, Last(a))
    requires IsRun(cfgB, b) && HasSucceeded(cfgB, Last(b))
    requires forall u, x, y :: Output(cfgA, a, u, x) && Output(cfgB, b, u, y) ==> x == y
    requires t < cfgA.Tasks()
    ensures t < |Last(a).tasks| && t < |Last(b).tasks|
    ensures Last(a).tasks[t].committedDigest == Last(b).tasks[t].committedDigest
  {
    CommittedIsOutput(cfgA, a, t);
    CommittedIsOutput(cfgB, b, t);
  }

  // ---- Growing a run ----

  function Extend(cfg: Config, run: Run, event: Event): Run
    requires run.states != [] && Shaped(cfg, Last(run))
    requires event.Grant? ==> event.task < cfg.Tasks() && event.executor < cfg.Executors()
  {
    Run(run.events + [event], run.states + [Step(cfg, Last(run), event)])
  }

  lemma StepsExtend(cfg: Config, run: Run, event: Event, i: nat)
    requires |run.states| == |run.events| + 1 && StepAt(cfg, run, i)
    requires Shaped(cfg, Last(run)) && Enabled(cfg, Last(run), event)
    ensures StepAt(cfg, Extend(cfg, run, event), i)
  {
    var r := Extend(cfg, run, event);
    if i < |run.events| {
      assert r.states[i] == run.states[i] && r.states[i + 1] == run.states[i + 1] && r.events[i] == run.events[i];
    }
  }

  /** One more enabled event makes a longer run. */
  lemma RunGrows(cfg: Config, run: Run, event: Event)
    requires IsRun(cfg, run) && Shaped(cfg, Last(run)) && Enabled(cfg, Last(run), event)
    ensures IsRun(cfg, Extend(cfg, run, event))
  {
    forall i: nat ensures StepAt(cfg, Extend(cfg, run, event), i) {
      assert StepAt(cfg, run, i);
      StepsExtend(cfg, run, event, i);
    }
  }

  lemma RunStarts(cfg: Config, s: State)
    requires cfg.Valid() && Untouched(cfg, s)
    ensures IsRun(cfg, Run([], [Start(cfg, s)]))
  {
  }
}
