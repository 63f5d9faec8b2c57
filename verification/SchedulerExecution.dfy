/**
 The scheduler as it executes: an object whose handlers update tasks, executors, leases, ready queue
 and ready set in place (scheduler_run.cpp, scheduler_dispatch.cpp). Every handler is proved to do
 exactly what the step functions say, and a whole execution to be one of the runs the theorems are
 about.
 */
module SchedulerExecution {
  import opened Basics
  import opened ResultVerification
  import opened TaskGraphs
  import opened SchedulerState
  import S = SchedulerSteps
  import opened SchedulerInvariant
  import R = SchedulerResume
  import opened SchedulerRuns
  import D = SchedulerDeadlock
  import opened SchedulerTurns
  import opened Sorting
  import opened ReadyQueues
  import opened ReadySets
  import opened CommitSinks

  // ---- Abandoning leases one by one ----

  /** What the quarantine loop does to one of the executor's leases. */
  ghost function AbandonOne(cfg: Config, s: State, executor: nat, l: nat): State
    requires Shaped(cfg, s) && l in s.leases
  {
    var t := s.leases[l].task;
    var released := S.Release(cfg, s, l);
    var task := released.tasks[t].(avoid := released.tasks[t].avoid + {executor});
    if task.phase != Committed && task.active == {} then
      released.(tasks := released.tasks[t := task.(phase := Ready)], ready := released.ready + {t})
    else
      released.(tasks := released.tasks[t := task])
  }

  lemma AbandonOneTask(s: State, executor: nat, gone: set<nat>, l: nat, u: nat)
    requires LeaseViews(s) && l in s.leases && l !in gone && u < |s.tasks|
    ensures var before, after := S.TaskLosing(s.tasks[u], gone, executor), S.TaskLosing(s.tasks[u], gone + {l}, executor);
            if u != s.leases[l].task then
              after == before && (S.Requeued(s.tasks[u], gone + {l}) <==> S.Requeued(s.tasks[u], gone))
            else
              var task := before.(active := before.active - {l}, avoid := before.avoid + {executor});
              && !S.Requeued(s.tasks[u], gone)
              && after == (if task.phase != Committed && task.active == {} then task.(phase := Ready) else task)
              && (S.Requeued(s.tasks[u], gone + {l}) <==> task.phase != Committed && task.active == {})
  {
    var task := s.tasks[u];
    assert LeaseKnown(s, l) && ActiveKnown(s, u, l);
    if u != s.leases[l].task {
      assert task.active * (gone + {l}) == task.active * gone;
      assert task.active - (gone + {l}) == task.active - gone;
    } else {
      assert l in task.active * (gone + {l}) && l in task.active - gone;
      assert task.active - (gone + {l}) == task.active - gone - {l};
      if task.active * gone == {} {
        LosingDrops(task, gone, executor);
        assert task.active - gone == task.active;
      }
    }
  }

  lemma AbandonStepTask(cfg: Config, s: State, executor: nat, gone: set<nat>, l: nat, u: nat)
    requires Shaped(cfg, s) && LeaseViews(s) && executor < cfg.Executors()
    requires l in s.leases && l !in gone && s.leases[l].executor == executor && u < |s.tasks|
    ensures var a, b := AbandonOne(cfg, S.Abandon(cfg, s, executor, gone), executor, l), S.Abandon(cfg, s, executor, gone + {l});
            a.tasks[u] == b.tasks[u] && (u in a.ready <==> u in b.ready)
  {
    AbandonOneTask(s, executor, gone, l, u);
  }

  lemma AbandonStepLeases(cfg: Config, s: State, executor: nat, gone: set<nat>, l: nat)
    requires Shaped(cfg, s) && executor < cfg.Executors()
    requires l in s.leases && l !in gone && s.leases[l].executor == executor
    ensures var a, b := AbandonOne(cfg, S.Abandon(cfg, s, executor, gone), executor, l), S.Abandon(cfg, s, executor, gone + {l});
            a.leases == b.leases && a.executors == b.executors
  {
    var a, b := AbandonOne(cfg, S.Abandon(cfg, s, executor, gone), executor, l), S.Abandon(cfg, s, executor, gone + {l});
    assert a.leases == b.leases;
    assert |gone + {l}| == |gone| + 1;
  }

  /** Abandoning one more lease is what quarantine's closed form says. */
  lemma AbandonStep(cfg: Config, s: State, executor: nat, gone: set<nat>, l: nat)
    requires Shaped(cfg, s) && LeaseViews(s) && executor < cfg.Executors()
    requires l in s.leases && l !in gone && s.leases[l].executor == executor
    ensures l in S.Abandon(cfg, s, executor, gone).leases && S.Abandon(cfg, s, executor, gone).leases[l] == s.leases[l]
    ensures AbandonOne(cfg, S.Abandon(cfg, s, executor, gone), executor, l) == S.Abandon(cfg, s, executor, gone + {l})
  {
    var a, b := AbandonOne(cfg, S.Abandon(cfg, s, executor, gone), executor, l), S.Abandon(cfg, s, executor, gone + {l});
    forall u: nat | u < |s.tasks| ensures a.tasks[u] == b.tasks[u] && (u in a.ready <==> u in b.ready) {
      AbandonStepTask(cfg, s, executor, gone, l, u);
    }
    AbandonStepLeases(cfg, s, executor, gone, l);
  }

  lemma NothingAbandoned(cfg: Config, s: State, executor: nat)
    requires Shaped(cfg, s) && executor < cfg.Executors()
    ensures S.Abandon(cfg, s, executor, {}) == s
  {
    var r := S.Abandon(cfg, s, executor, {});
    assert r.tasks == s.tasks && r.executors == s.executors && r.leases == s.leases && r.ready == s.ready;
  }

  /** The lease views look only at leases and at the tasks' active leases. */
  lemma SameLeaseViews(s: State, r: State)
    requires LeaseViews(s) && r.leases == s.leases && r.nextLease == s.nextLease && |r.tasks| == |s.tasks|
    requires forall t :: 0 <= t < |s.tasks| ==> r.tasks[t].active == s.tasks[t].active
    ensures LeaseViews(r)
  {
    forall l ensures LeaseKnown(r, l) { assert LeaseKnown(s, l); }
    forall t, l ensures ActiveKnown(r, t, l) { assert ActiveKnown(s, t, l); }
    forall l, k ensures Apart(r, l, k) { assert Apart(s, l, k); }
    forall t ensures AtMostTwo(r, t) { assert AtMostTwo(s, t); }
  }

  // ---- Marking dependents ready one by one ----

  /** Task `t` completed and the waiting tasks among `among` made ready. */
  ghost function Marked(cfg: Config, s: State, t: nat, among: set<nat>): State {
    s.(done := s.done + {t},
       tasks := seq(|s.tasks|, i requires 0 <= i < |s.tasks| =>
                   if i in among && s.tasks[i].phase == Waiting then s.tasks[i].(phase := Ready) else s.tasks[i]),
       ready := s.ready + set i | i in among && i < |s.tasks| && s.tasks[i].phase == Waiting)
  }

  lemma NothingMarked(cfg: Config, s: State, t: nat)
    ensures Marked(cfg, s, t, {}) == s.(done := s.done + {t})
  {
    assert Marked(cfg, s, t, {}).tasks == s.tasks;
    assert Marked(cfg, s, t, {}).ready == s.ready;
  }

  lemma MarkedMore(cfg: Config, s: State, t: nat, among: set<nat>, d: nat)
    requires d < |s.tasks|
    ensures var before, after := Marked(cfg, s, t, among), Marked(cfg, s, t, among + {d});
            after == if before.tasks[d].phase == Waiting
                     then before.(tasks := before.tasks[d := before.tasks[d].(phase := Ready)], ready := before.ready + {d})
                     else before
  {
    var before, after := Marked(cfg, s, t, among), Marked(cfg, s, t, among + {d});
    if before.tasks[d].phase == Waiting {
      assert after.tasks == before.tasks[d := before.tasks[d].(phase := Ready)];
      assert after.ready == before.ready + {d};
    } else {
      assert after.tasks == before.tasks;
      assert after.ready == before.ready;
    }
  }

  lemma MarkedAll(cfg: Config, s: State, t: nat, among: set<nat>)
    requires Shaped(cfg, s) && t < cfg.Tasks()
    requires forall d :: d in among <==> d in cfg.graph.dependents[t] && cfg.graph.Unblocked(d, s.done + {t})
    ensures Marked(cfg, s, t, among) == S.MarkReadyDependents(cfg, s, t)
  {
    var a, b := Marked(cfg, s, t, among), S.MarkReadyDependents(cfg, s, t);
    assert a.tasks == b.tasks;
    assert a.ready == b.ready;
  }

  lemma ReleasedViews(cfg: Config, s: State, l: nat)
    requires Inv(cfg, s, {}) && l in s.leases
    ensures LeaseViews(S.Release(cfg, s, l))
    ensures var task, r := s.leases[l].task, S.Release(cfg, s, l); r.tasks[task].phase != Committed ==> task !in r.done
  {
    ReleaseKeeps(cfg, s, l);
    assert Placed(cfg, s, s.leases[l].task, {});
  }

  lemma LossKeepsLeases(cfg: Config, s: State, l: nat, t: nat, e: nat)
    requires Shaped(cfg, s) && t < cfg.Tasks() && e < cfg.Executors()
    ensures var r := S.AttemptLost(cfg, S.CountLoss(cfg, s, l, e), t, e);
            forall k :: k in r.leases ==> k in s.leases && r.leases[k] == s.leases[k]
  {
  }

  /** Ending a lease renews none of the others. */
  lemma EndingOnlyRemoves(cfg: Config, s: State, l: nat, now: int)
    requires Shaped(cfg, s) && l in s.leases && S.Ended(s.leases[l], now)
    ensures var r := S.OnLeaseEnded(cfg, s, l, now);
            l !in r.leases && forall k :: k in r.leases ==> k in s.leases && r.leases[k] == s.leases[k]
  {
    var lease := s.leases[l];
    LossKeepsLeases(cfg, S.CountEnding(S.Release(cfg, s, l), lease, now), l, lease.task, lease.executor);
  }

  // ---- Starting, task by task ----

  ghost predicate StartsReady(cfg: Config, s: State, t: nat) {
    t < |s.tasks| && t < |cfg.graph.dependencies| && s.tasks[t].phase == Waiting && cfg.graph.Unblocked(t, s.done)
  }

  /** The tasks before `n` that start ready are ready. */
  ghost function StartedUpTo(cfg: Config, s: State, n: nat): State {
    s.(tasks := seq(|s.tasks|, t requires 0 <= t < |s.tasks| =>
                   if t < n && StartsReady(cfg, s, t) then s.tasks[t].(phase := Ready) else s.tasks[t]),
       ready := s.ready + set t: nat | t < |s.tasks| && t < n && StartsReady(cfg, s, t))
  }

  lemma NothingStarted(cfg: Config, s: State)
    ensures StartedUpTo(cfg, s, 0) == s
  {
    assert StartedUpTo(cfg, s, 0).tasks == s.tasks && StartedUpTo(cfg, s, 0).ready == s.ready;
  }

  lemma StartedNext(cfg: Config, s: State, n: nat)
    requires Shaped(cfg, s) && n < |s.tasks|
    ensures var before, after := StartedUpTo(cfg, s, n), StartedUpTo(cfg, s, n + 1);
            && before.tasks[n] == s.tasks[n]
            && after == if before.tasks[n].phase == Waiting && cfg.graph.Unblocked(n, before.done)
                        then before.(tasks := before.tasks[n := before.tasks[n].(phase := Ready)], ready := before.ready + {n})
                        else before
  {
    var before, after := StartedUpTo(cfg, s, n), StartedUpTo(cfg, s, n + 1);
    if StartsReady(cfg, s, n) {
      assert after.tasks == before.tasks[n := before.tasks[n].(phase := Ready)];
      assert after.ready == before.ready + {n};
    } else {
      assert after.tasks == before.tasks;
      assert after.ready == before.ready;
    }
  }

  lemma StartedAll(cfg: Config, s: State)
    requires Shaped(cfg, s)
    ensures StartedUpTo(cfg, s, |s.tasks|) == R.Start(cfg, s)
  {
    var a, b := StartedUpTo(cfg, s, |s.tasks|), R.Start(cfg, s);
    assert a.tasks == b.tasks;
    assert a.ready == b.ready;
  }

  datatype BuildStatus = BuildSucceeded | BuildFailed | BuildCancelled

  /** One run of the scheduler. */
  class SchedulerRun {
    const cfg: Config
    const readySet: ReadySet
    const readyQueue: ReadyQueue
    const sink: InMemorySink
    var tasks: seq<Task>
    var executors: seq<Executor>
    var leases: map<nat, Lease>
    var nextLease: nat
    var failure: Option<Failure>
    var incidents: seq<Incident>
    var stats: Stats
    ghost var history: Run

    ghost function View(): (s: State)
      reads this, readySet, readyQueue, sink
    {
      State(tasks, executors, leases, readyQueue.Contents(), readySet.Done(), nextLease,
            SinkView(cfg.graph, sink.results), failure, incidents, stats)
    }

    ghost predicate Valid()
      reads this, readySet, readyQueue, sink
    {
      && readySet.graph == cfg.graph && readyQueue.graph == cfg.graph
      && readySet.Valid() && readyQueue.Valid()
      && Shaped(cfg, View())
    }

    constructor (cfg: Config, sink: InMemorySink)
      requires cfg.Valid() && sink.results == map[]
      ensures Valid() && View() == R.NewRun(cfg)
      ensures this.cfg == cfg && this.sink == sink && fresh(readySet) && fresh(readyQueue)
    {
      hide ReadySet.Valid, ReadyQueue.Valid, SinkView;
      EmptySinkView(cfg.graph);
      this.cfg := cfg;
      this.sink := sink;
      readySet := new ReadySet(cfg.graph);
      readyQueue := new ReadyQueue(cfg.graph);
      tasks := seq(cfg.Tasks(), _ => FreshTask());
      executors := seq(cfg.Executors(), _ => FreshExecutor());
      leases := map[];
      nextLease := 1;
      failure := None;
      incidents := [];
      stats := NO_STATS;
    }

    method FailBuild(kind: FailureKind, task: Option<nat>)
      requires Valid()
      modifies `failure
      ensures Valid() && View() == S.FailBuild(old(View()), kind, task)
    {
      if failure.None? {
        failure := Some(Failure(kind, task));
      }
    }

    method Release(l: nat) returns (lease: Lease)
      requires Valid() && l in leases
      modifies `leases, `executors, `tasks
      ensures Valid() && lease == old(leases[l]) && View() == S.Release(cfg, old(View()), l)
    {
      hide ReadySet.Valid, ReadyQueue.Valid, ReadySet.Done, ReadyQueue.Contents, SinkView;
      lease := leases[l];
      leases := leases - {l};
      executors := executors[lease.executor := executors[lease.executor].(active := executors[lease.executor].active - 1)];
      tasks := tasks[lease.task := tasks[lease.task].(active := tasks[lease.task].active - {l})];
    }

    method MakeReady(t: nat)
      requires Valid() && t < |tasks|
      modifies `tasks, readyQueue
      ensures Valid() && tasks == old(tasks)[t := old(tasks)[t].(phase := Ready)]
      ensures View() == old(View()).(tasks := tasks, ready := old(View()).ready + {t})
    {
      hide ReadySet.Valid, ReadyQueue.Valid, ReadySet.Done, ReadyQueue.Contents, SinkView;
      tasks := tasks[t := tasks[t].(phase := Ready)];
      readyQueue.Add(t);
    }

    method AbandonLease(l: nat, executor: nat)
      requires Valid() && l in leases && leases[l].executor == executor
      modifies this, readyQueue
      ensures Valid() && View() == AbandonOne(cfg, old(View()), executor, l) && history == old(history)
    {
      hide ReadySet.Valid, ReadyQueue.Valid, ReadySet.Done, ReadyQueue.Contents, SinkView;
      var lease := Release(l);
      var task := tasks[lease.task].(avoid := tasks[lease.task].avoid + {executor});
      tasks := tasks[lease.task := task];
      if task.phase != Committed && task.active == {} {
        MakeReady(lease.task);
      }
    }

    /** The executor's leases go back to the queue without counting against their tasks. */
    method Quarantine(executor: nat)
      requires Valid() && executor < cfg.Executors() && LeaseViews(View())
      modifies this, readyQueue
      ensures Valid() && View() == S.Quarantine(cfg, old(View()), executor) && history == old(history)
    {
      hide ReadySet.Valid, ReadyQueue.Valid, ReadySet.Done, ReadyQueue.Contents, SinkView, LeaseViews, S.Abandon, AbandonOne, S.TaskLosing, S.Requeued;
      if executors[executor].quarantined {
        return;
      }
      executors := executors[executor := executors[executor].(quarantined := true)];
      stats := stats.(quarantined := stats.quarantined + [executor]);
      ghost var marked, gone: set<nat> := View(), {};
      assert LeaseViews(marked) by { SameLeaseViews(old(View()), marked); }
      NothingAbandoned(cfg, marked, executor);
      var abandoned := LeasesOn(leases, executor);
      while abandoned != {}
        invariant Valid() && history == old(history)
        invariant gone !! abandoned && gone + abandoned == LeasesOn(marked.leases, executor)
        invariant View() == S.Abandon(cfg, marked, executor, gone)
        decreases |abandoned|
      {
        var l :| l in abandoned;
        AbandonStep(cfg, marked, executor, gone, l);
        AbandonLease(l, executor);
        abandoned := abandoned - {l};
        gone := gone + {l};
      }
      assert gone == LeasesOn(marked.leases, executor);
    }

    method AttemptFailed(t: nat, executor: nat)
      requires Valid() && t < cfg.Tasks()
      modifies this, readyQueue
      ensures Valid() && View() == S.AttemptLost(cfg, old(View()), t, executor) && history == old(history)
    {
      hide ReadySet.Valid, ReadyQueue.Valid, ReadySet.Done, ReadyQueue.Contents, SinkView;
      var task := tasks[t].(failedAttempts := tasks[t].failedAttempts + 1, avoid := tasks[t].avoid + {executor});
      tasks := tasks[t := task];
      if task.phase == Committed || task.active != {} || failure.Some? {
        return;
      }
      if task.failedAttempts >= cfg.maxAttempts[t] {
        FailBuild(RetriesExhausted, Some(t));
        return;
      }
      stats := stats.(retries := stats.retries + 1);
      MakeReady(t);
    }

    method CountExecutorLoss(l: nat, executor: nat)
      requires Valid() && executor < cfg.Executors() && LeaseViews(View())
      modifies this, readyQueue
      ensures Valid() && View() == S.CountLoss(cfg, old(View()), l, executor) && history == old(history)
    {
      hide ReadySet.Valid, ReadyQueue.Valid, ReadySet.Done, ReadyQueue.Contents, SinkView, S.Quarantine, LeaseViews;
      var record := executors[executor];
      if cfg.neverQuarantinedForLoss[executor] || l < record.lossHorizon {
        return;
      }
      executors := executors[executor := record.(lossEvents := record.lossEvents + 1, lossHorizon := nextLease)];
      SameLeaseViews(old(View()), View());
      if executors[executor].lossEvents >= cfg.quarantineAfterLossEvents {
        Quarantine(executor);
      }
    }

    method NoteExecutorRecovery(l: nat, executor: nat)
      requires Valid() && executor < cfg.Executors()
      modifies `executors
      ensures Valid() && View() == S.NoteRecovery(cfg, old(View()), l, executor)
    {
      if l >= executors[executor].lossHorizon {
        executors := executors[executor := executors[executor].(lossEvents := 0)];
      }
    }

    /** Completing `t` moves the waiting tasks it unblocks to the queue. The ready set cannot refuse. */
    method MarkReadyDependents(t: nat)
      requires Valid() && t < cfg.Tasks() && t !in readySet.Done()
      modifies this, readyQueue, readySet
      ensures Valid() && View() == S.MarkReadyDependents(cfg, old(View()), t) && history == old(history)
    {
      hide ReadySet.Valid, ReadyQueue.Valid, ReadySet.Done, ReadyQueue.Contents, SinkView, Marked, S.MarkReadyDependents;
      ghost var before := View();
      var completed := readySet.Complete(t);
      var ready := completed.value;
      var i := 0;
      NothingMarked(cfg, before, t);
      assert Members(ready[..0]) == {};
      while i < |ready|
        invariant 0 <= i <= |ready|
        invariant Valid() && history == old(history)
        invariant View() == Marked(cfg, before, t, Members(ready[..i]))
      {
        var dependent := ready[i];
        assert dependent in cfg.graph.dependents[t];
        MarkedMore(cfg, before, t, Members(ready[..i]), dependent);
        if tasks[dependent].phase == Waiting {
          MakeReady(dependent);
        }
        assert ready[..i + 1] == ready[..i] + [dependent];
        assert Members(ready[..i + 1]) == Members(ready[..i]) + {dependent};
        i := i + 1;
      }
      assert ready[..i] == ready;
      MarkedAll(cfg, before, t, Members(ready));
    }

    method Commit(lease: Lease, output: AttemptOutput, sinkThrows: bool)
      requires Valid() && lease.task < cfg.Tasks() && lease.executor < cfg.Executors()
      requires lease.task !in readySet.Done()
      modifies this, readyQueue, readySet, sink
      ensures Valid() && View() == S.Commit(cfg, old(View()), lease, output, sinkThrows)
      ensures var taskId := cfg.graph.nodes[lease.task].taskId;
              sink.results == if sinkThrows || taskId in old(sink.results) then old(sink.results)
                              else old(sink.results)[taskId := CommittedResult(output, cfg.executorIds[lease.executor])]
      ensures history == old(history)
    {
      hide ReadySet.Valid, ReadyQueue.Valid, ReadySet.Done, ReadyQueue.Contents, SinkView, S.MarkReadyDependents;
      var t, id := lease.task, cfg.executorIds[lease.executor];
      if sinkThrows {
        FailBuild(CommitFailed, Some(t));
        return;
      }
      var committed := CommittedResult(output, id);
      InSinkView(cfg.graph, sink.results, t);
      var handed := sink.Commit(cfg.graph.nodes[t].taskId, committed);
      if handed.Err? {
        FailBuild(CommitFailed, Some(t));
        return;
      }
      StoredView(old(sink.results), t, committed);
      tasks := tasks[t := tasks[t].(phase := Committed,
                                    committedAttempt := lease.attempt,
                                    committedExecutor := id,
                                    committedDigest := output.result.outputDigest)];
      readyQueue.Erase(t);
      stats := stats.(committed := stats.committed + 1);
      MarkReadyDependents(t);
    }

    lemma StoredView(results: map<string, CommittedResult>, t: nat, c: CommittedResult)
      requires Valid() && t < cfg.Tasks()
      ensures SinkView(cfg.graph, results[cfg.graph.nodes[t].taskId := c]) == SinkView(cfg.graph, results)[t := c]
    {
      SinkViewAfter(cfg.graph, results, t, c);
    }

    method OnVerifiedSuccess(l: nat, lease: Lease, output: AttemptOutput, sinkThrows: bool)
      requires Valid() && lease.task < cfg.Tasks() && lease.executor < cfg.Executors()
      requires tasks[lease.task].phase != Committed ==> lease.task !in readySet.Done()
      modifies this, readyQueue, readySet, sink
      ensures Valid() && View() == S.VerifiedSuccess(cfg, old(View()), l, lease, output, sinkThrows)
      ensures history == old(history)
    {
      hide ReadySet.Valid, ReadyQueue.Valid, ReadySet.Done, ReadyQueue.Contents, SinkView, S.Commit;
      NoteExecutorRecovery(l, lease.executor);
      var task := tasks[lease.task];
      if task.phase != Committed {
        Commit(lease, output, sinkThrows);
        return;
      }
      if output.result.outputDigest == task.committedDigest {
        stats := stats.(duplicatesDiscarded := stats.duplicatesDiscarded + 1);
        return;
      }
      incidents := incidents + [Incident(lease.task,
                                         RecordOf(task),
                                         Commitment(lease.attempt, cfg.executorIds[lease.executor], output.result.outputDigest))];
      FailBuild(DeterminismIncident, Some(lease.task));
    }

    method OnHeartbeat(l: nat, now: int)
      requires Valid()
      modifies `leases
      ensures Valid() && View() == S.OnHeartbeat(old(View()), l, now)
    {
      hide ReadySet.Valid, ReadyQueue.Valid, ReadySet.Done, ReadyQueue.Contents, SinkView;
      if l in leases {
        leases := leases[l := leases[l].(expiresAt := now + leases[l].length)];
      }
    }

    /** An invalid result: its executor is quarantined and the attempt has failed. */
    method BlameExecutor(t: nat, executor: nat)
      requires Valid() && t < cfg.Tasks() && executor < cfg.Executors() && LeaseViews(View())
      modifies this, readyQueue
      ensures Valid() && history == old(history)
      ensures View() == S.AttemptLost(cfg, S.Quarantine(cfg, S.CountInvalid(old(View())), executor), t, executor)
    {
      hide ReadySet.Valid, ReadyQueue.Valid, ReadySet.Done, ReadyQueue.Contents, SinkView, S.AttemptLost, S.Quarantine, LeaseViews;
      stats := stats.(invalidResults := stats.invalidResults + 1);
      SameLeaseViews(old(View()), View());
      Quarantine(executor);
      AttemptFailed(t, executor);
    }

    /** A lost attempt: the executor's loss is counted and the attempt has failed. */
    method LoseAttempt(l: nat, t: nat, executor: nat)
      requires Valid() && t < cfg.Tasks() && executor < cfg.Executors() && LeaseViews(View())
      modifies this, readyQueue
      ensures Valid() && history == old(history)
      ensures View() == S.AttemptLost(cfg, S.CountLoss(cfg, old(View()), l, executor), t, executor)
    {
      hide ReadySet.Valid, ReadyQueue.Valid, ReadySet.Done, ReadyQueue.Contents, SinkView, S.AttemptLost, S.CountLoss, LeaseViews;
      CountExecutorLoss(l, executor);
      AttemptFailed(t, executor);
    }

    method OnFinished(l: nat, output: AttemptOutput, sinkThrows: bool)
      requires Valid() && Inv(cfg, View(), {})
      modifies this, readyQueue, readySet, sink
      ensures Valid() && View() == S.OnFinished(cfg, old(View()), l, output, sinkThrows) && history == old(history)
    {
      hide ReadySet.Valid, ReadyQueue.Valid, ReadySet.Done, ReadyQueue.Contents, SinkView, S.AttemptLost, S.Quarantine, S.VerifiedSuccess, S.Release, LeaseViews, Inv, FindResultDefect;
      if l !in leases {
        return;
      }
      ReleasedViews(cfg, View(), l);
      var lease := Release(l);
      ghost var released := View();
      executors := executors[lease.executor := executors[lease.executor].(declinedUntil := 0)];
      SameLeaseViews(released, View());
      var taskId := cfg.graph.nodes[lease.task].taskId;
      if FindResultDefect(cfg.hashing, taskId, lease.attempt, output).Some? {
        BlameExecutor(lease.task, lease.executor);
        return;
      }
      GateIsExact(cfg.hashing, taskId, lease.attempt, output);
      if output.result.status == Succeeded {
        OnVerifiedSuccess(l, lease, output, sinkThrows);
        return;
      }
      if tasks[lease.task].phase == Committed {
        return;
      }
      if !output.result.error.value.retryable {
        FailBuild(PermanentTaskFailure, Some(lease.task));
        return;
      }
      AttemptFailed(lease.task, lease.executor);
    }

    method OnFailed(l: nat, kind: AttemptFailureKind)
      requires Valid() && Inv(cfg, View(), {})
      modifies this, readyQueue
      ensures Valid() && View() == S.OnFailed(cfg, old(View()), l, kind) && history == old(history)
    {
      hide ReadySet.Valid, ReadyQueue.Valid, ReadySet.Done, ReadyQueue.Contents, SinkView, S.AttemptLost, S.Quarantine, S.CountLoss, S.CountInvalid, LeaseViews, Inv;
      if l !in leases {
        return;
      }
      ReleasedViews(cfg, View(), l);
      var lease := Release(l);
      if kind.InvalidResult? {
        BlameExecutor(lease.task, lease.executor);
      } else {
        LoseAttempt(l, lease.task, lease.executor);
      }
    }

    method OnRejected(l: nat, now: int)
      requires Valid()
      modifies this, readyQueue
      ensures Valid() && View() == S.OnRejected(cfg, old(View()), l, now) && history == old(history)
    {
      hide ReadySet.Valid, ReadyQueue.Valid, ReadySet.Done, ReadyQueue.Contents, SinkView, LeaseViews, S.Release;
      if l !in leases {
        return;
      }
      var lease := Release(l);
      stats := stats.(leasesRejected := stats.leasesRejected + 1);
      executors := executors[lease.executor := executors[lease.executor].(declinedUntil := now + cfg.rejectionBackoff)];
      if tasks[lease.task].phase != Committed && tasks[lease.task].active == {} {
        MakeReady(lease.task);
      }
    }

    /** Ends one lease the sweep found past its expiry or its deadline. */
    method EndLease(l: nat, now: int)
      requires Valid() && Inv(cfg, View(), {}) && l in leases && S.Ended(leases[l], now)
      modifies this, readyQueue
      ensures Valid() && View() == S.OnLeaseEnded(cfg, old(View()), l, now) && history == old(history)
    {
      hide ReadySet.Valid, ReadyQueue.Valid, ReadySet.Done, ReadyQueue.Contents, SinkView, S.AttemptLost, S.CountLoss, S.Release, LeaseViews, Inv;
      ReleasedViews(cfg, View(), l);
      var lease := Release(l);
      ghost var released := View();
      if lease.deadlineAt <= now {
        stats := stats.(deadlinesExceeded := stats.deadlinesExceeded + 1);
      } else {
        stats := stats.(leasesExpired := stats.leasesExpired + 1);
      }
      SameLeaseViews(released, View());
      LoseAttempt(l, lease.task, lease.executor);
    }

    // ---- Dispatch ----

    /** The object is where its history says. */
    ghost predicate Live()
      reads this, readySet, readyQueue, sink
    {
      Valid() && IsRun(cfg, history) && |history.states| == |history.events| + 1 && Last(history) == View()
    }

    lemma HeadInv()
      requires Live() && failure.None?
      ensures Inv(cfg, View(), {})
    {
      InvThroughout(cfg, history, |history.events|);
    }

    method HasOtherUsableExecutor(t: nat, executor: nat) returns (found: bool)
      requires Valid() && t < cfg.Tasks()
      ensures found == S.HasOtherUsable(cfg, View(), t, executor)
    {
      hide ReadySet.Valid, ReadyQueue.Valid, ReadySet.Done, ReadyQueue.Contents, SinkView;
      var other := 0;
      while other < |executors|
        invariant 0 <= other <= |executors|
        invariant forall o: nat :: o < other ==>
                    o == executor || !S.Usable(cfg, View(), o) || o in tasks[t].avoid || !cfg.Accepts(o, t)
      {
        if other != executor && !executors[other].quarantined && other !in tasks[t].avoid && cfg.Accepts(other, t) {
          assert S.Usable(cfg, View(), other);
          return true;
        }
        other := other + 1;
      }
      return false;
    }

    /** The first task in dispatch order that `executor` should take. */
    method PickTask(executor: nat) returns (picked: Option<nat>)
      requires Valid() && executor < cfg.Executors()
      ensures picked.Some? ==>
                && picked.value in readyQueue.Contents() && picked.value < cfg.Tasks()
                && S.Pickable(cfg, View(), picked.value, executor)
                && forall u :: u in readyQueue.Contents() && u < cfg.Tasks() && S.Pickable(cfg, View(), u, executor) ==>
                                 u == picked.value || Before(cfg.graph, picked.value, u)
      ensures picked.None? ==>
                forall u :: u in readyQueue.Contents() && u < cfg.Tasks() ==> !S.Pickable(cfg, View(), u, executor)
    {
      hide ReadySet.Valid, ReadySet.Done, SinkView;
      var i := 0;
      while i < |readyQueue.tasks|
        invariant 0 <= i <= |readyQueue.tasks|
        invariant forall k :: 0 <= k < i ==> readyQueue.tasks[k] < cfg.Tasks()
                                             && !S.Pickable(cfg, View(), readyQueue.tasks[k], executor)
      {
        var task := readyQueue.tasks[i];
        assert task in Members(readyQueue.tasks);
        if cfg.Accepts(executor, task) {
          var other := HasOtherUsableExecutor(task, executor);
          if !cfg.preferDifferentExecutor || executor !in tasks[task].avoid || !other {
            FirstInOrder(i);
            return Some(task);
          }
        }
        i := i + 1;
      }
      return None;
    }

    lemma FirstInOrder(i: nat)
      requires Valid() && i < |readyQueue.tasks|
      ensures forall u :: u in readyQueue.tasks[i + 1..] ==> Before(cfg.graph, readyQueue.tasks[i], u)
      ensures forall u :: u in readyQueue.Contents() ==>
                u == readyQueue.tasks[i] || u in readyQueue.tasks[i + 1..] || exists k :: 0 <= k < i && readyQueue.tasks[k] == u
    {
      var queue := readyQueue.tasks;
      forall u | u in queue[i + 1..] ensures Before(cfg.graph, queue[i], u) {
        var j :| i + 1 <= j < |queue| && queue[j] == u;
        assert Order(cfg.graph)(queue[i], queue[j]);
      }
    }

    method Issue(t: nat, executor: nat, speculative: bool, now: int)
      requires Valid() && t < cfg.Tasks() && executor < cfg.Executors()
      modifies this, readyQueue
      ensures Valid() && View() == S.GrantLease(cfg, old(View()), t, executor, speculative, now)
      ensures history == old(history)
    {
      hide ReadySet.Valid, ReadyQueue.Valid, ReadySet.Done, ReadyQueue.Contents, SinkView;
      var l, task, record := nextLease, tasks[t], executors[executor];
      var lease := Lease(t, executor, task.attemptsStarted + 1, cfg.leaseLength[t], now,
                         now + cfg.leaseLength[t], now + cfg.attemptLimit[t], speculative);
      nextLease, leases := l + 1, leases[l := lease];
      tasks := tasks[t := task.(phase := Leased, attemptsStarted := task.attemptsStarted + 1, active := task.active + {l})];
      executors := executors[executor := record.(active := record.active + 1)];
      stats := stats.(attemptsStarted := stats.attemptsStarted + 1,
                      speculativeAttempts := stats.speculativeAttempts + if speculative then 1 else 0);
      readyQueue.Erase(t);
    }

    method Grant(t: nat, executor: nat, speculative: bool, now: int)
      requires Live() && S.MayGrant(cfg, View(), t, executor, speculative, now)
      modifies this, readyQueue
      ensures Live() && View() == S.GrantLease(cfg, old(View()), t, executor, speculative, now)
      ensures D.OnlyGranted(old(View()), View()) && leases != map[]
      ensures history == Extend(cfg, old(history), Event.Grant(t, executor, speculative, now))
    {
      hide ReadySet.Valid, ReadyQueue.Valid, ReadySet.Done, ReadyQueue.Contents, SinkView, IsRun, S.GrantLease;
      hide S.Pickable, S.Duplicable, D.OnlyGranted;
      D.GrantInRange(cfg, View(), t, executor, speculative, now);
      RunGrows(cfg, history, Event.Grant(t, executor, speculative, now));
      D.NothingGranted(View());
      D.GrantOnlyGrants(cfg, View(), View(), t, executor, speculative, now);
      OneMoreActive(View(), t, executor, speculative, now);
      Issue(t, executor, speculative, now);
      history := Extend(cfg, history, Event.Grant(t, executor, speculative, now));
    }

    lemma OneMoreActive(before: State, t: nat, executor: nat, speculative: bool, now: int)
      requires Shaped(cfg, before) && t < cfg.Tasks() && executor < cfg.Executors()
      ensures var after := S.GrantLease(cfg, before, t, executor, speculative, now);
              && |after.executors| == |before.executors|
              && after.executors[executor].active == before.executors[executor].active + 1
              && after.leases != map[]
    {
      assert before.nextLease in S.GrantLease(cfg, before, t, executor, speculative, now).leases;
    }

    lemma NothingReady(before: State, after: State)
      requires D.OnlyGranted(before, after) && before.ready == {}
      ensures after.ready == {}
    {
    }

    /** Gives `executor` ready tasks until it is full or would take no more. */
    method FillSlots(executor: nat, now: int)
      requires Live() && failure.None? && executor < cfg.Executors() && !S.BackingOff(View(), executor, now)
      modifies this, readyQueue
      ensures Live() && Extends(old(history), history)
      ensures D.OnlyGranted(old(View()), View()) && D.Sated(cfg, View(), executor, now)
      ensures Granted(cfg, history, |old(history).events|, |history.events|, now, false, executor, executor + 1)
      ensures leases == map[] ==> history == old(history)
    {
      hide ReadySet.Valid, ReadyQueue.Valid, ReadySet.Done, ReadyQueue.Contents, SinkView, IsRun;
      hide S.Pickable, D.OnlyGranted, Granted, Extends, S.GrantLease;
      D.NothingGranted(View());
      NothingGrantedYet(cfg, history, now, false, executor, executor + 1);
      ExtendsItself(history);
      while !executors[executor].quarantined && executors[executor].active < cfg.slots[executor]
        invariant Live() && Extends(old(history), history) && D.OnlyGranted(old(View()), View())
        invariant Granted(cfg, history, |old(history).events|, |history.events|, now, false, executor, executor + 1)
        invariant leases == map[] ==> history == old(history)
        decreases cfg.slots[executor] - executors[executor].active
      {
        var picked := PickTask(executor);
        if picked.None? {
          break;
        }
        D.StandingKept(old(View()), View(), executor);
        ghost var before, run := View(), history;
        assert Chosen(cfg, before, picked.value, executor, false);
        Grant(picked.value, executor, false, now);
        OneMoreActive(before, picked.value, executor, false, now);
        GrantedOneMore(cfg, run, |old(history).events|, picked.value, executor, false, now);
        ExtendsTransitive(old(history), run, history);
        D.OnlyGrantedTransitive(old(View()), before, View());
      }
    }

    /** The straggler `executor` should duplicate: of those it may, one granted first. */
    method OldestStraggler(executor: nat) returns (oldest: Option<nat>)
      requires Valid() && executor < cfg.Executors()
      ensures oldest.Some? ==>
                && S.Duplicable(cfg, View(), oldest.value, executor)
                && forall l :: S.Duplicable(cfg, View(), l, executor) ==> leases[oldest.value].grantedAt <= leases[l].grantedAt
      ensures oldest.None? ==> forall l :: !S.Duplicable(cfg, View(), l, executor)
    {
      hide ReadySet.Valid, ReadyQueue.Valid, ReadySet.Done, ReadyQueue.Contents, SinkView;
      oldest := None;
      var remaining := leases.Keys;
      while remaining != {}
        invariant remaining <= leases.Keys
        invariant oldest.Some? ==>
                    && S.Duplicable(cfg, View(), oldest.value, executor)
                    && forall l :: S.Duplicable(cfg, View(), l, executor) && l !in remaining ==>
                                     leases[oldest.value].grantedAt <= leases[l].grantedAt
        invariant oldest.None? ==> forall l :: S.Duplicable(cfg, View(), l, executor) ==> l in remaining
        decreases |remaining|
      {
        var l :| l in remaining;
        remaining := remaining - {l};
        var lease := leases[l];
        var task := tasks[lease.task];
        if lease.executor == executor || task.phase == Committed || |task.active| != 1 || executor in task.avoid
           || !cfg.Accepts(executor, lease.task) {
          assert !S.Duplicable(cfg, View(), l, executor);
          continue;
        }
        assert S.Duplicable(cfg, View(), l, executor);
        if oldest.None? || lease.grantedAt < leases[oldest.value].grantedAt {
          oldest := Some(l);
        }
      }
    }

    /** Gives `executor` duplicates of stragglers until it is full or none is left. */
    method DuplicateStragglers(executor: nat, now: int)
      requires Live() && failure.None? && executor < cfg.Executors() && !S.BackingOff(View(), executor, now)
      requires cfg.speculativeDuplicates && readyQueue.Contents() == {}
      modifies this, readyQueue
      ensures Live() && Extends(old(history), history) && readyQueue.Contents() == {}
      ensures Granted(cfg, history, |old(history).events|, |history.events|, now, true, executor, executor + 1)
      ensures leases == map[] ==> history == old(history)
      ensures D.OnlyGranted(old(View()), View()) && D.Quiet(cfg, View(), executor, now)
      ensures forall e :: D.Quiet(cfg, old(View()), e, now) ==> D.Quiet(cfg, View(), e, now)
    {
      hide ReadySet.Valid, ReadyQueue.Valid, ReadySet.Done, ReadyQueue.Contents, SinkView, IsRun;
      hide S.Duplicable, D.OnlyGranted, D.Quiet, Inv, Granted, Extends, S.GrantLease;
      D.NothingGranted(View());
      NothingGrantedYet(cfg, history, now, true, executor, executor + 1);
      ExtendsItself(history);
      while !executors[executor].quarantined && executors[executor].active < cfg.slots[executor]
        invariant Live() && Extends(old(history), history) && D.OnlyGranted(old(View()), View())
        invariant readyQueue.Contents() == {} && (leases == map[] ==> history == old(history))
        invariant Granted(cfg, history, |old(history).events|, |history.events|, now, true, executor, executor + 1)
        invariant forall e :: D.Quiet(cfg, old(View()), e, now) ==> D.Quiet(cfg, View(), e, now)
        decreases cfg.slots[executor] - executors[executor].active
      {
        D.StandingKept(old(View()), View(), executor);
        HeadInv();
        var oldest := OldestStraggler(executor);
        if oldest.None? {
          D.QuietWhen(cfg, View(), executor, now);
          return;
        }
        var l := oldest.value;
        ghost var before, run := View(), history;
        D.StragglerIsLeased(cfg, before, l, executor);
        assert OldestLease(cfg, before, l, executor);
        assert Chosen(cfg, before, leases[l].task, executor, true);
        forall e | D.Quiet(cfg, before, e, now)
          ensures D.Quiet(cfg, S.GrantLease(cfg, before, before.leases[l].task, executor, true, now), e, now)
        {
          D.DuplicationKeepsQuiet(cfg, before, l, executor, e, now);
        }
        Grant(leases[l].task, executor, true, now);
        OneMoreActive(before, before.leases[l].task, executor, true, now);
        NothingReady(before, View());
        GrantedOneMore(cfg, run, |old(history).events|, before.leases[l].task, executor, true, now);
        ExtendsTransitive(old(history), run, history);
        D.OnlyGrantedTransitive(old(View()), before, View());
      }
      D.QuietWhen(cfg, View(), executor, now);
    }

    /** One round of granting: ready tasks first, executor by executor, then duplicates when nothing is ready. */
    method Dispatch(now: int) returns (ghost duplicates: nat)
      requires Live() && failure.None?
      modifies this, readyQueue
      ensures Live() && failure.None? && Extends(old(history), history)
      ensures D.OnlyGranted(old(View()), View()) && D.Dispatched(cfg, View(), now)
      ensures cfg.speculativeDuplicates && readyQueue.Contents() == {} ==> forall e :: D.Quiet(cfg, View(), e, now)
      ensures Granted(cfg, history, |old(history).events|, duplicates, now, false, 0, cfg.Executors())
      ensures Granted(cfg, history, duplicates, |history.events|, now, true, 0, cfg.Executors())
      ensures leases == map[] ==> history == old(history)
    {
      hide ReadySet.Valid, ReadyQueue.Valid, ReadySet.Done, SinkView, IsRun, D.Quiet, S.BackingOff;
      hide D.OnlyGranted, D.Sated, Granted, Extends;
      D.NothingGranted(View());
      DispatchReady(now);
      ghost var before, run := View(), history;
      duplicates := |history.events|;
      NothingGrantedYet(cfg, history, now, true, 0, cfg.Executors());
      if cfg.speculativeDuplicates && readyQueue.tasks == [] {
        assert readyQueue.Contents() == {};
        DispatchSpeculative(now);
        ExtendsTransitive(old(history), run, history);
        GrantedStays(cfg, run, history, |old(history).events|, duplicates, now, false, 0, cfg.Executors());
        D.LeasesKept(before, View());
        D.OnlyGrantedTransitive(old(View()), before, View());
        forall e: nat ensures D.Sated(cfg, View(), e, now) {
          D.SatedKept(cfg, before, View(), e, now);
        }
      } else if readyQueue.tasks != [] {
        assert readyQueue.tasks[0] in readyQueue.Contents();
      }
    }

    /** Fills every executor's slots with ready tasks. */
    method DispatchReady(now: int)
      requires Live() && failure.None?
      modifies this, readyQueue
      ensures Live() && failure.None? && Extends(old(history), history)
      ensures D.OnlyGranted(old(View()), View()) && D.Dispatched(cfg, View(), now)
      ensures Granted(cfg, history, |old(history).events|, |history.events|, now, false, 0, cfg.Executors())
      ensures leases == map[] ==> history == old(history)
    {
      hide ReadySet.Valid, ReadyQueue.Valid, ReadySet.Done, ReadyQueue.Contents, SinkView, IsRun, D.Quiet, S.BackingOff;
      hide D.OnlyGranted, D.Sated, Granted, Extends;
      D.NothingGranted(View());
      NothingGrantedYet(cfg, history, now, false, 0, 0);
      ExtendsItself(history);
      var executor := 0;
      while executor < |executors|
        invariant 0 <= executor <= |executors| == cfg.Executors()
        invariant Live() && failure.None? && Extends(old(history), history) && D.OnlyGranted(old(View()), View())
        invariant forall e: nat :: e < executor ==> D.Sated(cfg, View(), e, now)
        invariant Granted(cfg, history, |old(history).events|, |history.events|, now, false, 0, executor)
        invariant leases == map[] ==> history == old(history)
      {
        ghost var before, run := View(), history;
        NothingGrantedYet(cfg, history, now, false, executor, executor + 1);
        if executors[executor].declinedUntil > now {
          D.BackingOffIsSated(cfg, View(), executor, now);
        } else {
          D.NotBackingOff(View(), executor, now);
          FillSlots(executor, now);
          D.StandingKept(before, View(), executor);
          D.LeasesKept(before, View());
          D.OnlyGrantedTransitive(old(View()), before, View());
          ExtendsTransitive(old(history), run, history);
          forall e: nat | e < executor ensures D.Sated(cfg, View(), e, now) {
            D.SatedKept(cfg, before, View(), e, now);
          }
        }
        ExtendsItself(history);
        GrantedInTurn(cfg, run, history, |old(history).events|, now, false, executor, executor + 1);
        executor := executor + 1;
      }
      forall e: nat ensures D.Sated(cfg, View(), e, now) {
        if e >= executor { D.NobodyIsSated(cfg, View(), e, now); }
      }
    }

    method DispatchSpeculative(now: int)
      requires Live() && failure.None? && cfg.speculativeDuplicates && readyQueue.Contents() == {}
      modifies this, readyQueue
      ensures Live() && failure.None? && Extends(old(history), history)
      ensures D.OnlyGranted(old(View()), View())
      ensures forall e :: D.Quiet(cfg, View(), e, now)
      ensures Granted(cfg, history, |old(history).events|, |history.events|, now, true, 0, cfg.Executors())
      ensures leases == map[] ==> history == old(history)
    {
      hide ReadySet.Valid, ReadyQueue.Valid, ReadySet.Done, ReadyQueue.Contents, SinkView, IsRun, D.Quiet, S.BackingOff;
      hide D.OnlyGranted, Granted, Extends;
      D.NothingGranted(View());
      NothingGrantedYet(cfg, history, now, true, 0, 0);
      ExtendsItself(history);
      var executor := 0;
      while executor < |executors|
        invariant 0 <= executor <= |executors| == cfg.Executors()
        invariant Live() && failure.None? && Extends(old(history), history) && D.OnlyGranted(old(View()), View())
        invariant forall e: nat :: e < executor ==> D.Quiet(cfg, View(), e, now)
        invariant Granted(cfg, history, |old(history).events|, |history.events|, now, true, 0, executor)
        invariant readyQueue.Contents() == {} && (leases == map[] ==> history == old(history))
      {
        ghost var before, run := View(), history;
        NothingGrantedYet(cfg, history, now, true, executor, executor + 1);
        if executors[executor].declinedUntil > now {
          D.BackingOffIsQuiet(cfg, View(), executor, now);
        } else {
          D.NotBackingOff(View(), executor, now);
          DuplicateStragglers(executor, now);
          D.StandingKept(before, View(), executor);
          D.LeasesKept(before, View());
          D.OnlyGrantedTransitive(old(View()), before, View());
          ExtendsTransitive(old(history), run, history);
        }
        ExtendsItself(history);
        GrantedInTurn(cfg, run, history, |old(history).events|, now, true, executor, executor + 1);
        executor := executor + 1;
      }
      forall e: nat ensures D.Quiet(cfg, View(), e, now) {
        if e >= executor { D.NobodyIsQuiet(cfg, View(), e, now); }
      }
    }

    // ---- Events ----

    /** Applies one inbox event, unless the build has failed. */
    method Apply(event: Event)
      requires Live() && FromInbox(event)
      modifies this, readyQueue, readySet, sink
      ensures Live() && View() == S.Step(cfg, old(View()), event) && history == Extend(cfg, old(history), event)
    {
      hide ReadySet.Valid, ReadyQueue.Valid, ReadySet.Done, ReadyQueue.Contents, SinkView, IsRun, Inv;
      hide S.OnHeartbeat, S.OnFinished, S.OnFailed, S.OnRejected;
      RunGrows(cfg, history, event);
      if failure.None? {
        HeadInv();
        match event {
          case Heartbeat(l, now) => OnHeartbeat(l, now);
          case Finished(l, output, sinkThrows) => OnFinished(l, output, sinkThrows);
          case AttemptFailed(l, kind) => OnFailed(l, kind);
          case Rejected(l, now) => OnRejected(l, now);
        }
      }
      history := Extend(cfg, history, event);
    }

    method EndNext(l: nat, now: int)
      requires Live() && failure.None? && l in leases && S.Ended(leases[l], now)
      modifies this, readyQueue
      ensures Live() && View() == S.OnLeaseEnded(cfg, old(View()), l, now)
      ensures history == Extend(cfg, old(history), LeaseEnded(l, now))
    {
      hide ReadySet.Valid, ReadyQueue.Valid, ReadySet.Done, ReadyQueue.Contents, SinkView, IsRun, Inv, S.OnLeaseEnded;
      HeadInv();
      RunGrows(cfg, history, LeaseEnded(l, now));
      EndLease(l, now);
      history := Extend(cfg, history, LeaseEnded(l, now));
    }

    /** Ends every lease past its expiry or its deadline. */
    method ExpireLeases(now: int)
      requires Live()
      modifies this, readyQueue
      ensures Live() && Extends(old(history), history)
      ensures Swept(history, |old(history).events|, |history.events|, now)
    {
      hide ReadySet.Valid, ReadyQueue.Valid, ReadySet.Done, ReadyQueue.Contents, SinkView, IsRun, Inv, S.OnLeaseEnded;
      hide Extends, EndsAt;
      ExtendsItself(history);
      var ended: set<nat> := set l | l in leases && S.Ended(leases[l], now);
      while ended != {}
        invariant Live() && Extends(old(history), history) && |old(history).events| <= |history.events|
        invariant forall k :: |old(history).events| <= k < |history.events| ==> EndsAt(history, k, now)
        invariant failure.None? ==> forall l :: l in leases ==> (S.Ended(leases[l], now) <==> l in ended)
        decreases |ended|
      {
        var l :| l in ended;
        ended := ended - {l};
        if l !in leases || failure.Some? {
          continue;
        }
        ghost var before, run := View(), history;
        EndingOnlyRemoves(cfg, before, l, now);
        EndsOneMore(cfg, run, |old(history).events|, l, now);
        EndNext(l, now);
        ExtendsTransitive(old(history), run, history);
      }
    }

    method ApplyEvents(events: seq<Event>)
      requires Live() && forall i :: 0 <= i < |events| ==> FromInbox(events[i])
      modifies this, readyQueue, readySet, sink
      ensures Live() && Extends(old(history), history)
      ensures history.events == old(history).events + events
    {
      hide ReadySet.Valid, ReadyQueue.Valid, ReadySet.Done, ReadyQueue.Contents, SinkView, IsRun, S.Step, Extends;
      ExtendsItself(history);
      for i := 0 to |events|
        invariant Live() && Extends(old(history), history)
        invariant history.events == old(history).events + events[..i]
      {
        ghost var run := history;
        ExtendsOneStep(cfg, run, events[i]);
        Apply(events[i]);
        ExtendsTransitive(old(history), run, history);
      }
    }

    // ---- The whole run ----

    /** Marks resumed results committed; a bad one ends the run before it started. */
    method ApplyResumed(resumed: seq<CommittedResult>) returns (r: Result<(), R.ResumeError>)
      requires Valid() && View() == R.NewRun(cfg)
      modifies this, readySet
      ensures Valid()
      ensures match R.ApplyResumed(cfg, resumed)
              case Ok(s) => r.Ok? && View() == s
              case Err(error) => r == Err(error)
    {
      hide ReadyQueue.Valid, ReadySet.Valid, ReadySet.Done, ReadyQueue.Contents, SinkView, R.NewRun;
      var i := 0;
      assert resumed[..0] == [];
      while i < |resumed|
        invariant 0 <= i <= |resumed|
        invariant Valid() && R.ApplyResumed(cfg, resumed[..i]) == Ok(View())
      {
        R.ApplyResumedIsUntouched(cfg, resumed[..i]);
        R.ApplyResumedPrefix(cfg, resumed, i);
        var error := ResumeOne(resumed[i]);
        if error.Some? {
          return Err(error.value);
        }
        i := i + 1;
      }
      assert resumed[..i] == resumed;
      return Ok(());
    }

    method ResumeOne(committed: CommittedResult) returns (error: Option<R.ResumeError>)
      requires Valid() && R.Untouched(cfg, View())
      modifies this, readySet
      ensures Valid()
      ensures match R.ResumeOne(cfg, old(View()), committed)
              case Ok(s) => error.None? && View() == s
              case Err(e) => error == Some(e)
    {
      hide ReadyQueue.Valid, ReadySet.Valid, ReadySet.Done, ReadyQueue.Contents, SinkView;
      var result := committed.output.result;
      var index := Find(cfg.graph, result.taskId);
      if index.None? {
        return Some(R.UnknownTask);
      }
      var t := index.value;
      if tasks[t].phase == Committed {
        return Some(R.ResumedTwice);
      }
      var defect := FindResultDefect(cfg.hashing, cfg.graph.nodes[t].taskId, result.attempt, committed.output);
      if defect.Some? {
        return Some(R.InvalidResumed(defect.value));
      }
      if result.status != Succeeded {
        return Some(R.NotASuccess);
      }
      tasks := tasks[t := tasks[t].(phase := Committed,
                                    committedAttempt := result.attempt,
                                    committedExecutor := committed.executorId,
                                    committedDigest := result.outputDigest)];
      var _ := readySet.Complete(t);
      stats := stats.(resumed := stats.resumed + 1);
      return None;
    }

    /** With every resumed task known, the waiting tasks with no incomplete dependency become ready. */
    method MarkInitiallyReady()
      requires Valid() && cfg.Valid() && R.Untouched(cfg, View())
      modifies this, readyQueue
      ensures Live() && View() == R.Start(cfg, old(View()))
      ensures history == Run([], [View()])
    {
      hide ReadyQueue.Valid, ReadyQueue.Contents, SinkView, IsRun, R.Start, R.Untouched;
      ghost var s := View();
      assert R.Untouched(cfg, s);
      NothingStarted(cfg, s);
      var t := 0;
      while t < |tasks|
        invariant 0 <= t <= |tasks| == |s.tasks|
        invariant Valid() && cfg.Valid() && View() == StartedUpTo(cfg, s, t)
      {
        StartedNext(cfg, s, t);
        if tasks[t].phase == Waiting {
          if forall d :: d in cfg.graph.dependencies[t] ==> readySet.complete[d] {
            MakeReady(t);
          }
        }
        t := t + 1;
      }
      StartedAll(cfg, s);
      RunStarts(cfg, s);
      history := Run([], [View()]);
    }

    method AnyExecutorBackingOff(now: int) returns (any: bool)
      requires Valid()
      ensures any == S.AnyBackingOff(cfg, View(), now)
    {
      hide ReadySet.Valid, ReadyQueue.Valid, ReadySet.Done, ReadyQueue.Contents, SinkView;
      var executor := 0;
      while executor < |executors|
        invariant 0 <= executor <= |executors|
        invariant forall e: nat :: e < executor ==> executors[e].quarantined || !S.BackingOff(View(), e, now)
      {
        if !executors[executor].quarantined && executors[executor].declinedUntil > now {
          assert S.BackingOff(View(), executor, now);
          return true;
        }
        executor := executor + 1;
      }
      return false;
    }

    lemma SomeTaskLeft()
      requires Valid() && !readySet.AllComplete()
      ensures exists t: nat :: t < cfg.Tasks() && t !in readySet.Done()
    {
      var all, done := Below(cfg.Tasks()), readySet.Done();
      assert done <= all && |all - done| == |all| - |done|;
      var t :| t in all - done;
    }

    /** What a round that grants nothing, with nobody backing off, proves. */
    lemma NothingCanRun(now: int)
      requires Live() && failure.None? && cfg.Valid() && D.Dispatched(cfg, View(), now)
      requires leases == map[] && !S.AnyBackingOff(cfg, View(), now) && !readySet.AllComplete()
      ensures D.Stuck(cfg, View())
    {
      hide ReadySet.Done, SinkView, IsRun, Inv, D.Dispatched, S.AnyBackingOff;
      HeadInv();
      SomeTaskLeft();
      var t: nat :| t < cfg.Tasks() && t !in readySet.Done();
      D.NoFalseDeadlock(cfg, View(), now, t);
    }

    /** One turn of the loop. */
    method RunOnce(tick: Tick) returns (ended: Option<BuildStatus>, ghost turn: Turn)
      requires Live() && failure.None? && cfg.Valid()
      requires forall i :: 0 <= i < |tick.events| ==> FromInbox(tick.events[i])
      modifies this, readyQueue, readySet, sink
      ensures ended != Some(BuildFailed) ==> Live()
      ensures IsRun(cfg, history) && Extends(old(history), history)
      ensures ended == Some(BuildSucceeded) <==> !tick.cancelled && old(readySet.AllComplete() && leases == map[])
      ensures ended == Some(BuildSucceeded) ==> HasSucceeded(cfg, View())
      ensures ended == Some(BuildCancelled) <==> tick.cancelled
      ensures ended == Some(BuildCancelled) ==> failure.None?
      ensures ended == Some(BuildFailed) ==> failure == Some(Failure(NoUsableExecutor, None)) && StuckAt(tick.dispatchedAt)
      ensures ended.Some? ==> history == old(history)
      ensures ended.None? ==>
                IsTurn(cfg, history, tick, turn) && turn.start == |old(history).events| && turn.end == |history.events|
    {
      hide ReadySet.Valid, ReadyQueue.Valid, ReadySet.Done, ReadyQueue.Contents, SinkView, IsRun;
      hide D.Dispatched, D.Stuck, D.Quiet, S.AnyBackingOff, Extends, Granted, Swept, HasSucceeded;
      turn := Turn(0, 0, 0, 0, 0);
      ghost var start, first := |history.events|, history;
      ExtendsItself(history);
      if tick.cancelled {
        return Some(BuildCancelled), turn;
      }
      CompleteCount();
      if readySet.AllComplete() && leases == map[] {
        return Some(BuildSucceeded), turn;
      }
      ghost var before := View();
      assert Begins(cfg, before, tick);
      ghost var duplicates := Dispatch(tick.dispatchedAt);
      D.LeasesKept(before, View());
      var backingOff := AnyExecutorBackingOff(tick.dispatchedAt);
      if leases == map[] && !backingOff {
        NothingCanRun(tick.dispatchedAt);
        FailBuild(NoUsableExecutor, None);
        return Some(BuildFailed), turn;
      }
      assert Waits(cfg, View(), tick.dispatchedAt);
      ghost var dispatched := history;
      ApplyEvents(tick.events);
      ghost var applied := history;
      ExpireLeases(tick.appliedAt);
      turn := Turn(start, duplicates, |dispatched.events|, |applied.events|, |history.events|);
      hide Waits, Begins;
      ExtendsTransitive(first, dispatched, applied);
      ExtendsTransitive(first, applied, history);
      TurnTaken(cfg, first, dispatched, applied, history, tick, turn);
      return None, turn;
    }

    /** The run ended where nothing is ready that anyone who is left could take, and nobody is backing off. */
    ghost predicate StuckAt(now: int)
      reads `history
    {
      && history.states != [] && Last(history).failure.None? && Shaped(cfg, Last(history))
      && D.Stuck(cfg, Last(history)) && !S.AnyBackingOff(cfg, Last(history), now)
    }

    lemma CompleteCount()
      requires Valid()
      ensures readySet.AllComplete() <==> |View().done| == cfg.Tasks()
      ensures readySet.AllComplete() && leases == map[] && failure.None? <==> HasSucceeded(cfg, View())
    {
    }

    /** After success the sink has one result for each task that was not resumed: the whole of what one of its attempts
        reported. */
    lemma Delivered(origin: State)
      requires Live() && HasSucceeded(cfg, View())
      requires Shaped(cfg, origin) && history.states[0] == R.Start(cfg, origin)
      ensures forall t :: 0 <= t < cfg.Tasks() ==> (cfg.graph.nodes[t].taskId in sink.results <==> t !in origin.done)
      ensures forall t :: 0 <= t < cfg.Tasks() && t !in origin.done ==>
                exists i :: ReportedAt(cfg, history, i, t, sink.results[cfg.graph.nodes[t].taskId])
    {
      hide ReadySet.Valid, ReadyQueue.Valid, ReadySet.Done, ReadyQueue.Contents, IsRun, SinkView;
      forall t: nat | t < cfg.Tasks()
        ensures cfg.graph.nodes[t].taskId in sink.results <==> t !in origin.done
        ensures cfg.graph.nodes[t].taskId in sink.results ==> exists i :: ReportedAt(cfg, history, i, t, sink.results[cfg.graph.nodes[t].taskId])
      {
        SuccessIsComplete(cfg, history, t);
        InSinkView(cfg.graph, sink.results, t);
        ExactlyOnce(cfg, history, t);
      }
    }

    /** Runs until the build succeeds, fails or is cancelled, or `None` when the ticks run out first. The run it
        makes is its turns, one a tick, and nothing besides. */
    method Execute(ticks: seq<Tick>) returns (status: Option<BuildStatus>, ghost turns: seq<Turn>)
      requires Valid() && cfg.Valid() && R.Untouched(cfg, View())
      requires forall i, k :: 0 <= i < |ticks| && 0 <= k < |ticks[i].events| ==> FromInbox(ticks[i].events[k])
      modifies this, readyQueue, readySet, sink
      ensures IsRun(cfg, history) && |history.states| == |history.events| + 1 && history.states[0] == R.Start(cfg, old(View()))
      ensures MadeOfTurns(cfg, history, ticks, turns)
      ensures status.None? ==> |turns| == |ticks| && Last(history).failure.None?
      ensures status == Some(BuildSucceeded) ==> HasSucceeded(cfg, Last(history)) && View() == Last(history)
      ensures status == Some(BuildSucceeded) ==>
                forall t :: 0 <= t < cfg.Tasks() ==>
                  && (cfg.graph.nodes[t].taskId in sink.results <==> t !in old(readySet.Done()))
                  && (t !in old(readySet.Done()) ==>
                        exists i :: ReportedAt(cfg, history, i, t, sink.results[cfg.graph.nodes[t].taskId]))
      ensures status == Some(BuildFailed) ==>
                || (failure.Some? && failure == Last(history).failure)
                || (failure == Some(Failure(NoUsableExecutor, None)) && |turns| < |ticks| && StuckAt(ticks[|turns|].dispatchedAt))
      ensures status == Some(BuildCancelled) ==> failure.None? && |turns| < |ticks| && ticks[|turns|].cancelled
      ensures status.Some? ==> leases == map[]
    {
      hide ReadySet.Valid, ReadyQueue.Valid, ReadySet.Done, ReadyQueue.Contents, SinkView, IsRun;
      hide D.Stuck, R.Start, R.Untouched, MadeOfTurns, IsTurn, StuckAt;
      MarkInitiallyReady();
      ghost var first := history;
      status, turns := None, [];
      NoTurnsYet(cfg, history, ticks);
      ExtendsItself(history);
      var i := 0;
      while failure.None?
        invariant 0 <= i <= |ticks| && Live() && Extends(first, history)
        invariant |turns| == i && MadeOfTurns(cfg, history, ticks, turns)
        decreases |ticks| - i
      {
        if i == |ticks| {
          return None, turns;
        }
        ghost var run := history;
        ghost var turn;
        status, turn := RunOnce(ticks[i]);
        ExtendsTransitive(first, run, history);
        if status.Some? {
          if status == Some(BuildSucceeded) { Delivered(old(View())); }
          leases := map[];
          return;
        }
        OneTurnMore(cfg, run, history, ticks, turns, turn);
        turns := turns + [turn];
        i := i + 1;
      }
      status := Some(BuildFailed);
      leases := map[];
    }
  }
}
