/**
 Who is given what, in terms of what happened before: the grants of every run, and what a round of dispatch prefers and
 leaves behind (scheduler_dispatch.cpp).
 */
module SchedulerChoices {
  import opened SchedulerState
  import opened SchedulerSteps
  import opened SchedulerInvariant
  import opened SchedulerRuns
  import opened SchedulerFailures
  import opened SchedulerClock
  import opened SchedulerTurns
  import opened ReadyQueues
  import D = SchedulerDeadlock

  // ---- Standing ----

  /** By step `i`, task `t` blames executor `e`. */
  ghost predicate HasBlamed(cfg: Config, run: Run, i: nat, t: nat, e: nat) {
    exists j :: 0 <= j < i && BlamedAt(cfg, run, j, t, e)
  }

  /** Executor `e` is not quarantined, has a slot that no outstanding lease takes, and is not backing off from a refusal. */
  ghost predicate Available(cfg: Config, run: Run, i: nat, e: nat, now: int) {
    && i < |run.states| && i <= |run.events| && e < |run.states[i].executors| && e < |cfg.slots|
    && !run.states[i].executors[e].quarantined
    && |LeasesOn(run.states[i].leases, e)| < cfg.slots[e]
    && forall j: nat :: Refusing(run, i, e, j) ==> TimeOf(run.events[j]) + cfg.rejectionBackoff <= now
  }

  /** Task `t` is not complete, all its dependencies are, and no attempt of it is in flight. */
  ghost predicate Unstarted(cfg: Config, s: State, t: nat) {
    && t < |cfg.graph.dependencies| && t !in s.done && (forall d :: d in cfg.graph.dependencies[t] ==> d in s.done)
    && forall l :: l in s.leases ==> s.leases[l].task != t
  }

  /** Executor `e` accepts `t`, and either `t` does not blame it or, where the policy looks for another one, there is no
      other that is not quarantined, accepts `t` and is not blamed. */
  ghost predicate MayRun(cfg: Config, run: Run, i: nat, t: nat, e: nat) {
    && i < |run.states| && (e, t) in cfg.accepts
    && (cfg.preferDifferentExecutor && HasBlamed(cfg, run, i, t, e) ==>
          forall other :: 0 <= other < |run.states[i].executors| && other != e ==>
                            run.states[i].executors[other].quarantined || (other, t) !in cfg.accepts || HasBlamed(cfg, run, i, t, other))
  }

  /** The only attempt of an incomplete task, on another executor than `e`, which accepts the task and is not blamed. */
  ghost predicate Straggler(cfg: Config, run: Run, i: nat, l: nat, e: nat) {
    && i < |run.states| && l in run.states[i].leases
    && var s, t := run.states[i], run.states[i].leases[l].task;
       && s.leases[l].executor != e && t !in s.done && (e, t) in cfg.accepts && !HasBlamed(cfg, run, i, t, e)
       && forall k :: k in s.leases && s.leases[k].task == t ==> k == l
  }

  // ---- What the scheduler's own tests say ----

  lemma PickableIsMayRun(cfg: Config, run: Run, i: nat, t: nat, e: nat)
    requires IsRun(cfg, run) && i < |run.states| && t < cfg.Tasks() && e < cfg.Executors()
    ensures Shaped(cfg, run.states[i])
    ensures Pickable(cfg, run.states[i], t, e) <==> MayRun(cfg, run, i, t, e)
  {
    InvThroughout(cfg, run, i);
    hide IsRun, BlamedAt;
    forall x: nat | x < cfg.Executors() ensures x in run.states[i].tasks[t].avoid <==> HasBlamed(cfg, run, i, t, x) {
      AvoidedIsBlamed(cfg, run, i, t, x);
    }
    hide Inv, HasBlamed;
  }

  lemma ReadyIsUnstarted(cfg: Config, s: State, t: nat)
    requires Inv(cfg, s, {}) && t < cfg.Tasks()
    ensures t in s.ready <==> Unstarted(cfg, s, t)
  {
    assert Placed(cfg, s, t, {});
    forall l ensures l in s.tasks[t].active <==> l in s.leases && s.leases[l].task == t {
      assert ActiveKnown(s, t, l) && LeaseKnown(s, l);
    }
    if t in s.ready {
      forall l | l in s.leases ensures s.leases[l].task != t { assert l !in s.tasks[t].active; }
    }
    if Unstarted(cfg, s, t) {
      if l :| l in s.tasks[t].active { assert s.leases[l].task == t; }
    }
  }

  lemma FreeIsAvailable(cfg: Config, run: Run, i: nat, e: nat, now: int)
    requires IsRun(cfg, run) && i < |run.states| && run.states[i].failure.None? && e < cfg.Executors()
    ensures Shaped(cfg, run.states[i])
    ensures var s := run.states[i];
            && (Usable(cfg, s, e) && HasFreeSlot(cfg, s, e) && !BackingOff(s, e, now) ==> Available(cfg, run, i, e, now))
            && (Available(cfg, run, i, e, now) && now >= 0 ==> Usable(cfg, s, e) && HasFreeSlot(cfg, s, e) && !BackingOff(s, e, now))
  {
    RunLength(cfg, run);
    InvThroughout(cfg, run, i);
    assert SlotsAgree(cfg, run.states[i], e);
    BackoffIs(cfg, run, i, e);
    hide IsRun, Inv, LeasesOn;
    OneRefusal(run, i, e);
    hide Refusing;
  }

  /** There is only one last refusal. */
  lemma OneRefusal(run: Run, i: nat, e: nat)
    ensures forall j, k :: Refusing(run, i, e, j) && Refusing(run, i, e, k) ==> j == k
  {
  }

  lemma DuplicableIsStraggler(cfg: Config, run: Run, i: nat, l: nat, e: nat)
    requires IsRun(cfg, run) && i < |run.states| && run.states[i].failure.None? && e < cfg.Executors()
    ensures Shaped(cfg, run.states[i])
    ensures Duplicable(cfg, run.states[i], l, e) <==> Straggler(cfg, run, i, l, e)
  {
    InvThroughout(cfg, run, i);
    var s := run.states[i];
    if l in s.leases {
      var t := s.leases[l].task;
      AvoidedIsBlamed(cfg, run, i, t, e);
      OnlyLease(s, l);
      assert LeaseKnown(s, l) && Placed(cfg, s, t, {});
      if |s.tasks[t].active| == 1 { OnlyMember(s.tasks[t].active, l); }
      hide IsRun, BlamedAt, Inv;
    }
  }

  // ---- Every grant ----

  /** In every run a task is granted only to an executor that is available, that may run it, and while it is unstarted;
      a duplicate only of the one attempt of a task on another executor. */
  lemma GrantsAreRight(cfg: Config, run: Run, i: nat)
    requires IsRun(cfg, run) && i < |run.events| && run.events[i].Grant? && run.states[i].failure.None?
    ensures var Grant(t, e, speculative, now) := run.events[i];
            && Available(cfg, run, i, e, now)
            && if speculative then cfg.speculativeDuplicates && exists l :: Straggler(cfg, run, i, l, e) && run.states[i].leases[l].task == t
               else Unstarted(cfg, run.states[i], t) && MayRun(cfg, run, i, t, e)
  {
    var Grant(t, e, speculative, now) := run.events[i];
    InvThroughout(cfg, run, i);
    assert StepAt(cfg, run, i);
    var s := run.states[i];
    assert MayGrant(cfg, s, t, e, speculative, now);
    FreeIsAvailable(cfg, run, i, e, now);
    hide IsRun, Available, MayRun, Straggler, Unstarted, Inv, Pickable, Duplicable, BackingOff, HasFreeSlot;
    if speculative {
      var l :| Duplicable(cfg, s, l, e) && s.leases[l].task == t;
      DuplicableIsStraggler(cfg, run, i, l, e);
    } else {
      PickableIsMayRun(cfg, run, i, t, e);
      ReadyIsUnstarted(cfg, s, t);
    }
  }

  // ---- What dispatch prefers ----

  /** Of the unstarted tasks that `e` may run, `t` goes first. */
  ghost predicate RunsFirst(cfg: Config, run: Run, i: nat, t: nat, e: nat)
    requires cfg.Shaped() && t < cfg.Tasks()
  {
    forall u :: 0 <= u < cfg.Tasks() && i < |run.states| && Unstarted(cfg, run.states[i], u) && MayRun(cfg, run, i, u, e) ==>
      u == t || GoesFirst(cfg.graph, t, u)
  }

  /** Of the stragglers `e` may duplicate, the attempt behind `l` was granted first. */
  ghost predicate OldestStraggler(cfg: Config, run: Run, i: nat, l: nat, e: nat) {
    && Straggler(cfg, run, i, l, e)
    && forall k :: Straggler(cfg, run, i, k, e) ==> run.states[i].leases[l].grantedAt <= run.states[i].leases[k].grantedAt
  }

  lemma FirstPickRunsFirst(cfg: Config, run: Run, i: nat, t: nat, e: nat)
    requires IsRun(cfg, run) && i < |run.states| && run.states[i].failure.None? && e < cfg.Executors() && Shaped(cfg, run.states[i])
    requires FirstPick(cfg, run.states[i], t, e)
    ensures t < cfg.Tasks() && RunsFirst(cfg, run, i, t, e)
  {
    InvThroughout(cfg, run, i);
    hide IsRun, MayRun, Unstarted, Inv, Pickable, GoesFirst, Before;
    forall u: nat | u < cfg.Tasks() && Unstarted(cfg, run.states[i], u) && MayRun(cfg, run, i, u, e)
      ensures u == t || GoesFirst(cfg.graph, t, u)
    {
      PickableIsMayRun(cfg, run, i, u, e);
      ReadyIsUnstarted(cfg, run.states[i], u);
      BeforeMeans(cfg.graph, t, u);
    }
  }

  lemma OldestLeaseIsStraggler(cfg: Config, run: Run, i: nat, l: nat, e: nat)
    requires IsRun(cfg, run) && i < |run.states| && run.states[i].failure.None? && e < cfg.Executors() && Shaped(cfg, run.states[i])
    requires OldestLease(cfg, run.states[i], l, e)
    ensures OldestStraggler(cfg, run, i, l, e)
  {
    hide IsRun, Straggler, Duplicable;
    forall k: nat ensures Duplicable(cfg, run.states[i], k, e) <==> Straggler(cfg, run, i, k, e) { DuplicableIsStraggler(cfg, run, i, k, e); }
  }

  /** A round of dispatch gives an executor, of all unstarted tasks it may run, the one that goes first; and duplicates
      attempts, oldest first, only when no task is left unstarted. */
  lemma DispatchPrefers(cfg: Config, run: Run, k: nat, now: int, speculative: bool, lo: nat, hi: nat)
    requires IsRun(cfg, run) && GrantAt(cfg, run, k, now, speculative, lo, hi) && run.states[k].failure.None? && hi <= cfg.Executors()
    ensures var Grant(t, e, _, _) := run.events[k];
            if speculative then
              && (forall u :: 0 <= u < cfg.Tasks() ==> !Unstarted(cfg, run.states[k], u))
              && exists l :: OldestStraggler(cfg, run, k, l, e) && run.states[k].leases[l].task == t
            else t < cfg.Tasks() && RunsFirst(cfg, run, k, t, e)
  {
    var Grant(t, e, _, _) := run.events[k];
    RunLength(cfg, run);
    InvThroughout(cfg, run, k);
    hide IsRun, Unstarted, OldestStraggler, RunsFirst, FirstPick, OldestLease, Inv;
    if speculative {
      forall u: nat | u < cfg.Tasks() ensures !Unstarted(cfg, run.states[k], u) { ReadyIsUnstarted(cfg, run.states[k], u); }
      var l :| OldestLease(cfg, run.states[k], l, e) && run.states[k].leases[l].task == t;
      OldestLeaseIsStraggler(cfg, run, k, l, e);
    } else {
      FirstPickRunsFirst(cfg, run, k, t, e);
    }
  }

  lemma LeavesNoTask(cfg: Config, run: Run, i: nat, e: nat, u: nat)
    requires IsRun(cfg, run) && i < |run.states| && e < cfg.Executors() && u < cfg.Tasks()
    requires Inv(cfg, run.states[i], {}) && (u in run.states[i].ready ==> !Pickable(cfg, run.states[i], u, e))
    ensures Unstarted(cfg, run.states[i], u) ==> !MayRun(cfg, run, i, u, e)
  {
    hide IsRun, MayRun, Unstarted, Pickable, Inv;
    PickableIsMayRun(cfg, run, i, u, e);
    ReadyIsUnstarted(cfg, run.states[i], u);
  }

  lemma NothingUnstarted(cfg: Config, s: State)
    requires Inv(cfg, s, {}) && forall u :: 0 <= u < cfg.Tasks() ==> !Unstarted(cfg, s, u)
    ensures s.ready == {}
  {
    hide Unstarted;
    forall u: nat ensures u !in s.ready { if u < cfg.Tasks() { ReadyIsUnstarted(cfg, s, u); } }
  }

  /** What a round of dispatch leaves: no available executor that may run an unstarted task, and, with duplicates on and
      nothing unstarted, none with a straggler to duplicate. */
  lemma DispatchLeavesNothing(cfg: Config, run: Run, i: nat, e: nat, now: int)
    requires IsRun(cfg, run) && i < |run.states| && run.states[i].failure.None? && Waits(cfg, run.states[i], now) && now >= 0
    requires Available(cfg, run, i, e, now)
    ensures forall u :: 0 <= u < cfg.Tasks() && Unstarted(cfg, run.states[i], u) ==> !MayRun(cfg, run, i, u, e)
    ensures cfg.speculativeDuplicates && (forall u :: 0 <= u < cfg.Tasks() ==> !Unstarted(cfg, run.states[i], u)) ==>
              forall l :: !Straggler(cfg, run, i, l, e)
  {
    hide IsRun, MayRun, Unstarted, Straggler, Pickable, Duplicable, BackingOff, HasFreeSlot, Inv, Refusing, LeasesOn;
    RunLength(cfg, run);
    InvThroughout(cfg, run, i);
    var s := run.states[i];
    InvShaped(cfg, s);
    FreeIsAvailable(cfg, run, i, e, now);
    assert D.Sated(cfg, s, e, now);
    forall u: nat | u < cfg.Tasks() && Unstarted(cfg, s, u) ensures !MayRun(cfg, run, i, u, e) {
      LeavesNoTask(cfg, run, i, e, u);
    }
    if cfg.speculativeDuplicates && forall u :: 0 <= u < cfg.Tasks() ==> !Unstarted(cfg, s, u) {
      NothingUnstarted(cfg, s);
      assert D.Quiet(cfg, s, e, now);
      forall l: nat ensures !Straggler(cfg, run, i, l, e) { DuplicableIsStraggler(cfg, run, i, l, e); }
    }
  }

  lemma InvShaped(cfg: Config, s: State)
    requires Inv(cfg, s, {})
    ensures Shaped(cfg, s) && |s.executors| == |cfg.slots|
  {
  }

  /** Some executor that is not quarantined is still backing off from a refusal. */
  ghost predicate SomeoneRefuses(cfg: Config, run: Run, i: nat, now: int) {
    exists e: nat, j: nat :: i < |run.states| && e < |run.states[i].executors| && !run.states[i].executors[e].quarantined
                             && Refusing(run, i, e, j) && j < |run.events| && TimeOf(run.events[j]) + cfg.rejectionBackoff > now
  }

  /** The wait for back-offs is for these. */
  lemma BackingOffMeans(cfg: Config, run: Run, i: nat, now: int)
    requires IsRun(cfg, run) && i < |run.states| && now >= 0
    ensures Shaped(cfg, run.states[i])
    ensures AnyBackingOff(cfg, run.states[i], now) <==> SomeoneRefuses(cfg, run, i, now)
  {
    InvThroughout(cfg, run, i);
    RunLength(cfg, run);
    hide IsRun, Inv, Refusing;
    if e: nat :| e < |run.states[i].executors| && !run.states[i].executors[e].quarantined && BackingOff(run.states[i], e, now) {
      BackoffIs(cfg, run, i, e);
      var j: nat :| Refusing(run, i, e, j) && run.states[i].executors[e].declinedUntil == TimeOf(run.events[j]) + cfg.rejectionBackoff;
      RefusalIsEvent(run, i, e, j);
    }
    if e: nat, j: nat :| i < |run.states| && e < |run.states[i].executors| && !run.states[i].executors[e].quarantined
                         && Refusing(run, i, e, j) && j < |run.events| && TimeOf(run.events[j]) + cfg.rejectionBackoff > now {
      BackoffIs(cfg, run, i, e);
      OneRefusal(run, i, e);
      assert BackingOff(run.states[i], e, now);
    }
  }

  lemma RefusalIsEvent(run: Run, i: nat, e: nat, j: nat)
    requires Refusing(run, i, e, j)
    ensures j < |run.events|
  {
  }
}
