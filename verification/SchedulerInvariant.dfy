/**
 The invariant of the scheduler: the lease map, the tasks' active leases, the executors' slot counts,
 the ready queue, the ready set and the commit sink agree. Every step keeps it.
 */
module SchedulerInvariant {
  import opened ResultVerification
  import opened TaskGraphs
  import opened SchedulerState
  import opened SchedulerSteps

  /** Lease `l` of the lease map is known to its task. */
  ghost predicate LeaseKnown(s: State, l: nat) {
    l in s.leases ==>
      && 0 < l < s.nextLease
      && s.leases[l].task < |s.tasks|
      && l in s.tasks[s.leases[l].task].active
  }

  /** Active lease `l` of task `t` is in the lease map. */
  ghost predicate ActiveKnown(s: State, t: nat, l: nat) {
    t < |s.tasks| && l in s.tasks[t].active ==> l in s.leases && s.leases[l].task == t
  }

  /** Two leases of one task run on different executors. */
  ghost predicate Apart(s: State, l: nat, k: nat) {
    l in s.leases && k in s.leases && l != k && s.leases[l].task == s.leases[k].task ==>
      s.leases[l].executor != s.leases[k].executor
  }

  /** A task has at most two attempts in flight. */
  ghost predicate AtMostTwo(s: State, t: nat) {
    t < |s.tasks| ==> |s.tasks[t].active| <= 2
  }

  /** The lease map and the tasks' active leases name the same attempts. */
  ghost predicate LeaseViews(s: State) {
    && (forall l :: LeaseKnown(s, l))
    && (forall t, l :: ActiveKnown(s, t, l))
    && (forall l, k :: Apart(s, l, k))
    && (forall t :: AtMostTwo(s, t))
  }

  /** Executor `e` counts its own leases, within its slots; once quarantined it has none. */
  ghost predicate SlotsAgree(cfg: Config, s: State, e: nat) {
    e < |s.executors| && e < |cfg.slots| ==>
      && s.executors[e].active == |LeasesOn(s.leases, e)| <= cfg.slots[e]
      && (s.executors[e].quarantined ==> LeasesOn(s.leases, e) == {})
      && s.executors[e].lossHorizon <= s.nextLease
  }

  ghost predicate SlotViews(cfg: Config, s: State) {
    0 < s.nextLease && forall e :: SlotsAgree(cfg, s, e)
  }

  /** Where task `t` stands. Within a handler, a task in `open` has lost its lease and is not yet requeued. */
  ghost predicate Placed(cfg: Config, s: State, t: nat, open: set<nat>) {
    t < |s.tasks| && t < |cfg.graph.dependencies| ==>
      var task := s.tasks[t];
      match task.phase
      case Waiting => task.active == {} && t !in s.ready && t !in s.done && !cfg.graph.Unblocked(t, s.done)
      case Ready => task.active == {} && t in s.ready && t !in s.done && cfg.graph.Unblocked(t, s.done)
      case Leased => (task.active != {} || t in open) && t !in s.ready && t !in s.done && cfg.graph.Unblocked(t, s.done)
      case Committed => t !in s.ready && t in s.done
  }

  ghost predicate Places(cfg: Config, s: State, open: set<nat>) {
    && (forall t :: Placed(cfg, s, t, open))
    && (forall t :: t in s.ready ==> t < |s.tasks|)
    && (forall t :: t in s.done ==> t < |s.tasks|)
  }

  /** The sink holds results of committed tasks only, and the task record remembers the same digest. */
  ghost predicate SinkViews(s: State) {
    forall t :: t in s.sink ==>
                  && t < |s.tasks|
                  && s.tasks[t].phase == Committed
                  && s.tasks[t].committedDigest == s.sink[t].output.result.outputDigest
  }

  ghost predicate Inv(cfg: Config, s: State, open: set<nat>) {
    Shaped(cfg, s) && LeaseViews(s) && SlotViews(cfg, s) && Places(cfg, s, open) && SinkViews(s)
  }

  // ---- Small facts ----

  lemma LeasesOnWithout(leases: map<nat, Lease>, gone: set<nat>, e: nat)
    ensures LeasesOn(leases - gone, e) == LeasesOn(leases, e) - gone
  {
  }

  lemma SubsetIsNotLarger<T>(a: set<T>, b: set<T>)
    requires a <= b
    ensures |a| <= |b|
  {
    if a != {} {
      var x :| x in a;
      SubsetIsNotLarger(a - {x}, b - {x});
    }
  }

  lemma OnlyMember<T>(a: set<T>, x: T)
    requires |a| == 1 && x in a
    ensures a == {x}
  {
    assert |a - {x}| == 0;
  }

  /** The task of an outstanding lease is leased or already committed. */
  lemma LeasedOrCommitted(cfg: Config, s: State, l: nat)
    requires Inv(cfg, s, {}) && l in s.leases
    ensures s.tasks[s.leases[l].task].phase in {Leased, Committed}
  {
    assert LeaseKnown(s, l) && Placed(cfg, s, s.leases[l].task, {});
  }

  /** Statistics, back-off times and incidents are no part of the invariant. */
  lemma SameViewsKeep(cfg: Config, s: State, r: State, open: set<nat>)
    requires Inv(cfg, s, open) && Shaped(cfg, r)
    requires r.tasks == s.tasks && r.leases == s.leases && r.ready == s.ready && r.done == s.done
    requires r.sink == s.sink && r.nextLease == s.nextLease
    requires forall e :: 0 <= e < |s.executors| ==>
               && r.executors[e].active == s.executors[e].active
               && r.executors[e].quarantined == s.executors[e].quarantined
               && r.executors[e].lossHorizon <= s.nextLease
    ensures Inv(cfg, r, open)
  {
    forall l ensures LeaseKnown(r, l) { assert LeaseKnown(s, l); }
    forall t, l ensures ActiveKnown(r, t, l) { assert ActiveKnown(s, t, l); }
    forall l, k ensures Apart(r, l, k) { assert Apart(s, l, k); }
    forall t ensures AtMostTwo(r, t) { assert AtMostTwo(s, t); }
    forall e ensures SlotsAgree(cfg, r, e) { assert SlotsAgree(cfg, s, e); }
    forall t ensures Placed(cfg, r, t, open) { assert Placed(cfg, s, t, open); }
  }

  // ---- Taking leases away ----

  /** Dropping leases keeps the lease views when every task drops the same ones. */
  lemma DropKeepsLeaseViews(s: State, r: State, gone: set<nat>)
    requires LeaseViews(s)
    requires r.leases == s.leases - gone && r.nextLease == s.nextLease && |r.tasks| == |s.tasks|
    requires forall t :: 0 <= t < |s.tasks| ==> r.tasks[t].active == s.tasks[t].active - gone
    ensures LeaseViews(r)
  {
    forall l ensures LeaseKnown(r, l) { assert LeaseKnown(s, l); }
    forall t, l ensures ActiveKnown(r, t, l) { assert ActiveKnown(s, t, l); }
    forall l, k ensures Apart(r, l, k) { assert Apart(s, l, k); }
    forall t: nat ensures AtMostTwo(r, t) {
      assert AtMostTwo(s, t);
      if t < |r.tasks| { SubsetIsNotLarger(r.tasks[t].active, s.tasks[t].active); }
    }
  }

  lemma ReleaseKeeps(cfg: Config, s: State, l: nat)
    requires Inv(cfg, s, {}) && l in s.leases
    ensures Inv(cfg, Release(cfg, s, l), {s.leases[l].task})
  {
    var r := Release(cfg, s, l);
    var lease := s.leases[l];
    forall t: nat | t < |s.tasks| ensures r.tasks[t].active == s.tasks[t].active - {l} {
      assert ActiveKnown(s, t, l);
    }
    DropKeepsLeaseViews(s, r, {l});
    forall e ensures SlotsAgree(cfg, r, e) {
      assert SlotsAgree(cfg, s, e);
      LeasesOnWithout(s.leases, {l}, e);
      if e != lease.executor {
        assert LeasesOn(s.leases, e) - {l} == LeasesOn(s.leases, e);
      } else {
        assert l in LeasesOn(s.leases, e);
      }
    }
    forall t ensures Placed(cfg, r, t, {lease.task}) { assert Placed(cfg, s, t, {}); assert LeaseKnown(s, l); }
  }

  lemma LosingDrops(task: Task, gone: set<nat>, e: nat)
    ensures TaskLosing(task, gone, e).active == task.active - gone
  {
    if task.active * gone == {} {
      assert forall l :: l in task.active && l in gone ==> l in task.active * gone;
      assert task.active - gone == task.active;
    }
  }

  lemma QuarantineKeepsLeaseViews(cfg: Config, s: State, e: nat)
    requires Shaped(cfg, s) && LeaseViews(s) && e < cfg.Executors() && !s.executors[e].quarantined
    ensures LeaseViews(Quarantine(cfg, s, e))
  {
    var r := Quarantine(cfg, s, e);
    var gone := LeasesOn(s.leases, e);
    forall t: nat | t < |s.tasks| ensures r.tasks[t].active == s.tasks[t].active - gone {
      LosingDrops(s.tasks[t], gone, e);
    }
    DropKeepsLeaseViews(s, r, gone);
  }

  lemma QuarantineKeepsSlots(cfg: Config, s: State, e: nat)
    requires Shaped(cfg, s) && SlotViews(cfg, s) && e < cfg.Executors() && !s.executors[e].quarantined
    ensures SlotViews(cfg, Quarantine(cfg, s, e))
  {
    var r := Quarantine(cfg, s, e);
    var gone := LeasesOn(s.leases, e);
    forall x ensures SlotsAgree(cfg, r, x) {
      assert SlotsAgree(cfg, s, x);
      LeasesOnWithout(s.leases, gone, x);
      if x == e {
        assert LeasesOn(r.leases, x) == {};
      } else {
        assert LeasesOn(s.leases, x) - gone == LeasesOn(s.leases, x);
      }
    }
  }

  lemma QuarantineKeepsPlaces(cfg: Config, s: State, e: nat, open: set<nat>)
    requires Shaped(cfg, s) && Places(cfg, s, open) && e < cfg.Executors() && !s.executors[e].quarantined
    ensures Places(cfg, Quarantine(cfg, s, e), open)
  {
    var r := Quarantine(cfg, s, e);
    forall t ensures Placed(cfg, r, t, open) { assert Placed(cfg, s, t, open); }
  }

  lemma QuarantineKeeps(cfg: Config, s: State, e: nat, open: set<nat>)
    requires Inv(cfg, s, open) && e < cfg.Executors()
    ensures Inv(cfg, Quarantine(cfg, s, e), open)
  {
    if !s.executors[e].quarantined {
      QuarantineKeepsLeaseViews(cfg, s, e);
      QuarantineKeepsSlots(cfg, s, e);
      QuarantineKeepsPlaces(cfg, s, e, open);
    }
  }

  /** Quarantine never sends a task back to waiting. */
  lemma QuarantineNeverBlocks(cfg: Config, s: State, e: nat, t: nat)
    requires Shaped(cfg, s) && e < cfg.Executors() && t < cfg.Tasks()
    ensures Quarantine(cfg, s, e).tasks[t].phase in {s.tasks[t].phase, Ready}
    ensures Quarantine(cfg, s, e).failure == s.failure
  {
  }

  lemma CountLossKeeps(cfg: Config, s: State, l: nat, e: nat, open: set<nat>)
    requires Inv(cfg, s, open) && e < cfg.Executors()
    ensures Inv(cfg, CountLoss(cfg, s, l, e), open)
  {
    var counted := RecordLoss(cfg, s, e);
    forall x: nat | x < |s.executors| ensures counted.executors[x].lossHorizon <= s.nextLease {
      assert SlotsAgree(cfg, s, x);
    }
    SameViewsKeep(cfg, s, counted, open);
    QuarantineKeeps(cfg, counted, e, open);
  }

  // ---- The end of an attempt ----

  /** Moving task `t` to the ready queue closes its opening. */
  lemma ReadyKeeps(cfg: Config, s: State, t: nat, r: State)
    requires Inv(cfg, s, {t}) && t < cfg.Tasks() && Shaped(cfg, r)
    requires s.tasks[t].phase != Waiting && s.tasks[t].phase != Committed && s.tasks[t].active == {}
    requires |r.tasks| == |s.tasks| && forall u :: 0 <= u < |s.tasks| && u != t ==> r.tasks[u] == s.tasks[u]
    requires r.tasks[t].phase == Ready && r.tasks[t].active == {}
    requires r.ready == s.ready + {t}
    requires r.done == s.done && r.leases == s.leases && r.executors == s.executors
    requires r.sink == s.sink && r.nextLease == s.nextLease
    ensures Inv(cfg, r, {})
  {
    forall l ensures LeaseKnown(r, l) { assert LeaseKnown(s, l); }
    forall u, l ensures ActiveKnown(r, u, l) { assert ActiveKnown(s, u, l); }
    forall l, k ensures Apart(r, l, k) { assert Apart(s, l, k); }
    forall u ensures AtMostTwo(r, u) { assert AtMostTwo(s, u); }
    forall e ensures SlotsAgree(cfg, r, e) { assert SlotsAgree(cfg, s, e); }
    forall u ensures Placed(cfg, r, u, {}) { assert Placed(cfg, s, u, {t}); }
    assert Placed(cfg, s, t, {t});
  }

  /** A task that is committed or still has an attempt in flight needs no requeueing. */
  lemma BusyClosesOpening(cfg: Config, s: State, t: nat, r: State)
    requires Inv(cfg, s, {t}) && t < cfg.Tasks() && Shaped(cfg, r)
    requires s.tasks[t].phase == Committed || s.tasks[t].active != {}
    requires |r.tasks| == |s.tasks| && forall u :: 0 <= u < |s.tasks| && u != t ==> r.tasks[u] == s.tasks[u]
    requires r.tasks[t].phase == s.tasks[t].phase && r.tasks[t].active == s.tasks[t].active
    requires r.tasks[t].committedDigest == s.tasks[t].committedDigest
    requires r.ready == s.ready
    requires r.done == s.done && r.leases == s.leases && r.executors == s.executors
    requires r.sink == s.sink && r.nextLease == s.nextLease
    ensures Inv(cfg, r, {})
  {
    forall l ensures LeaseKnown(r, l) { assert LeaseKnown(s, l); }
    forall u, l ensures ActiveKnown(r, u, l) { assert ActiveKnown(s, u, l); }
    forall l, k ensures Apart(r, l, k) { assert Apart(s, l, k); }
    forall u ensures AtMostTwo(r, u) { assert AtMostTwo(s, u); }
    forall e ensures SlotsAgree(cfg, r, e) { assert SlotsAgree(cfg, s, e); }
    forall u ensures Placed(cfg, r, u, {}) { assert Placed(cfg, s, u, {t}); }
  }

  lemma AttemptLostKeeps(cfg: Config, s: State, t: nat, e: nat)
    requires Inv(cfg, s, {t}) && t < cfg.Tasks() && s.tasks[t].phase != Waiting && s.failure.None?
    ensures var r := AttemptLost(cfg, s, t, e);
            r.failure.None? ==> Inv(cfg, r, {})
  {
    var r := AttemptLost(cfg, s, t, e);
    if r.failure.None? {
      if s.tasks[t].phase == Committed || s.tasks[t].active != {} {
        BusyClosesOpening(cfg, s, t, r);
      } else {
        ReadyKeeps(cfg, s, t, r);
      }
    }
  }

  lemma RequeueKeeps(cfg: Config, s: State, t: nat)
    requires Inv(cfg, s, {t}) && t < cfg.Tasks() && s.tasks[t].phase != Waiting
    ensures Inv(cfg, Requeue(s, t), {})
  {
    var r := Requeue(s, t);
    if s.tasks[t].phase == Committed || s.tasks[t].active != {} {
      BusyClosesOpening(cfg, s, t, r);
    } else {
      ReadyKeeps(cfg, s, t, r);
    }
  }

  // ---- Commit ----

  /** Completing `t` unblocks only tasks that depend on `t`. */
  lemma CommitUnblocks(g: TaskGraph, done: set<nat>, t: nat, u: nat)
    requires g.Shaped() && g.Inverse() && t < g.Size() && u < g.Size()
    ensures g.Unblocked(u, done) ==> g.Unblocked(u, done + {t})
    ensures !g.Unblocked(u, done) && g.Unblocked(u, done + {t}) ==> u in g.dependents[t]
  {
    if !g.Unblocked(u, done) && g.Unblocked(u, done + {t}) {
      var d :| d in g.dependencies[u] && d !in done;
      assert d == t;
    }
  }

  lemma CommitPlaces(cfg: Config, s: State, lease: Lease, output: AttemptOutput, u: nat)
    requires Inv(cfg, s, {lease.task}) && cfg.graph.Inverse()
    requires lease.task < cfg.Tasks() && lease.executor < cfg.Executors()
    requires s.tasks[lease.task].phase == Leased && lease.task !in s.sink
    ensures Placed(cfg, Commit(cfg, s, lease, output, false), u, {})
  {
    assert Placed(cfg, s, u, {lease.task});
    if u < cfg.Tasks() {
      CommitUnblocks(cfg.graph, s.done, lease.task, u);
    }
  }

  lemma CommitKeeps(cfg: Config, s: State, lease: Lease, output: AttemptOutput, sinkThrows: bool)
    requires Inv(cfg, s, {lease.task}) && cfg.graph.Inverse()
    requires lease.task < cfg.Tasks() && lease.executor < cfg.Executors()
    requires s.tasks[lease.task].phase == Leased
    ensures lease.task !in s.sink
    ensures var r := Commit(cfg, s, lease, output, sinkThrows);
            r.failure.None? ==> Inv(cfg, r, {})
  {
    var t := lease.task;
    var r := Commit(cfg, s, lease, output, sinkThrows);
    assert t !in s.sink;
    if !sinkThrows {
      CommitKeepsLeases(cfg, s, lease, output);
      forall u ensures Placed(cfg, r, u, {}) { CommitPlaces(cfg, s, lease, output, u); }
      hide LeaseViews, SlotViews, Placed;
    }
  }

  lemma CommitKeepsLeases(cfg: Config, s: State, lease: Lease, output: AttemptOutput)
    requires Shaped(cfg, s) && LeaseViews(s) && SlotViews(cfg, s) && lease.task < cfg.Tasks() && lease.executor < cfg.Executors()
    ensures var r := Commit(cfg, s, lease, output, false); LeaseViews(r) && SlotViews(cfg, r)
  {
    var r := Commit(cfg, s, lease, output, false);
    forall l ensures LeaseKnown(r, l) { assert LeaseKnown(s, l); }
    forall u, l ensures ActiveKnown(r, u, l) { assert ActiveKnown(s, u, l); }
    forall l, k ensures Apart(r, l, k) { assert Apart(s, l, k); }
    forall u ensures AtMostTwo(r, u) { assert AtMostTwo(s, u); }
    forall e ensures SlotsAgree(cfg, r, e) { assert SlotsAgree(cfg, s, e); }
  }

  /** A verified success commits once, and never runs into the sink's "committed twice" error. */
  lemma VerifiedSuccessKeeps(cfg: Config, s: State, l: nat, lease: Lease, output: AttemptOutput, sinkThrows: bool)
    requires Inv(cfg, s, {lease.task}) && cfg.graph.Inverse()
    requires lease.task < cfg.Tasks() && lease.executor < cfg.Executors()
    requires s.tasks[lease.task].phase in {Leased, Committed}
    ensures s.tasks[lease.task].phase == Leased ==> lease.task !in s.sink
    ensures var r := VerifiedSuccess(cfg, s, l, lease, output, sinkThrows);
            r.failure.None? ==> Inv(cfg, r, {})
  {
    var s1 := NoteRecovery(cfg, s, l, lease.executor);
    forall x: nat | x < |s.executors| ensures s1.executors[x].lossHorizon <= s.nextLease {
      assert SlotsAgree(cfg, s, x);
    }
    SameViewsKeep(cfg, s, s1, {lease.task});
    if s1.tasks[lease.task].phase == Leased {
      CommitKeeps(cfg, s1, lease, output, sinkThrows);
    } else {
      var r := VerifiedSuccess(cfg, s, l, lease, output, sinkThrows);
      BusyClosesOpening(cfg, s1, lease.task, r);
    }
  }

  // ---- Granting ----

  lemma GrantApart(cfg: Config, s: State, t: nat, e: nat, speculative: bool, now: int)
    requires Inv(cfg, s, {}) && MayGrant(cfg, s, t, e, speculative, now)
    ensures s.tasks[t].phase in {Ready, Leased} && |s.tasks[t].active| <= 1
    ensures forall k :: k in s.tasks[t].active ==> k in s.leases && s.leases[k].executor != e
  {
    assert Placed(cfg, s, t, {});
    if speculative {
      var k :| Duplicable(cfg, s, k, e) && s.leases[k].task == t;
      assert LeaseKnown(s, k);
      OnlyMember(s.tasks[t].active, k);
    }
  }

  lemma GrantKeepsLeaseViews(cfg: Config, s: State, t: nat, e: nat, speculative: bool, now: int)
    requires Shaped(cfg, s) && LeaseViews(s) && t < cfg.Tasks() && e < cfg.Executors() && 0 < s.nextLease
    requires |s.tasks[t].active| <= 1
    requires forall k :: k in s.tasks[t].active ==> k in s.leases && s.leases[k].executor != e
    ensures LeaseViews(GrantLease(cfg, s, t, e, speculative, now))
  {
    var r := GrantLease(cfg, s, t, e, speculative, now);
    var l := s.nextLease;
    assert LeaseKnown(s, l);
    forall k ensures LeaseKnown(r, k) { assert LeaseKnown(s, k); }
    forall u, k ensures ActiveKnown(r, u, k) { assert ActiveKnown(s, u, k); }
    forall k, m ensures Apart(r, k, m) { assert Apart(s, k, m) && LeaseKnown(s, k) && LeaseKnown(s, m); }
    forall u ensures AtMostTwo(r, u) { assert AtMostTwo(s, u); }
  }

  lemma GrantKeepsSlots(cfg: Config, s: State, t: nat, e: nat, speculative: bool, now: int)
    requires Shaped(cfg, s) && SlotViews(cfg, s) && t < cfg.Tasks() && Usable(cfg, s, e) && HasFreeSlot(cfg, s, e)
    requires s.nextLease !in s.leases
    ensures SlotViews(cfg, GrantLease(cfg, s, t, e, speculative, now))
  {
    var r := GrantLease(cfg, s, t, e, speculative, now);
    forall x ensures SlotsAgree(cfg, r, x) {
      assert SlotsAgree(cfg, s, x);
      assert LeasesOn(r.leases, x) == LeasesOn(s.leases, x) + if x == e then {s.nextLease} else {};
    }
  }

  lemma GrantKeeps(cfg: Config, s: State, t: nat, e: nat, speculative: bool, now: int)
    requires Inv(cfg, s, {}) && MayGrant(cfg, s, t, e, speculative, now)
    ensures Inv(cfg, GrantLease(cfg, s, t, e, speculative, now), {})
  {
    var r := GrantLease(cfg, s, t, e, speculative, now);
    assert LeaseKnown(s, s.nextLease);
    GrantApart(cfg, s, t, e, speculative, now);
    GrantKeepsLeaseViews(cfg, s, t, e, speculative, now);
    GrantKeepsSlots(cfg, s, t, e, speculative, now);
    assert Placed(cfg, s, t, {});
    forall u ensures Placed(cfg, r, u, {}) { assert Placed(cfg, s, u, {}); }
  }

  // ---- Every step ----

  lemma FinishedKeeps(cfg: Config, s: State, l: nat, output: AttemptOutput, sinkThrows: bool)
    requires Inv(cfg, s, {}) && cfg.graph.Inverse() && l in s.leases && s.failure.None?
    ensures var r := OnFinished(cfg, s, l, output, sinkThrows);
            r.failure.None? ==> Inv(cfg, r, {})
  {
    var lease := s.leases[l];
    var t := lease.task;
    LeasedOrCommitted(cfg, s, l);
    ReleaseKeeps(cfg, s, l);
    var released := ReleaseFinished(cfg, s, l);
    assert released.tasks[t].phase == s.tasks[t].phase;
    forall x: nat | x < |s.executors| ensures released.executors[x].lossHorizon <= s.nextLease {
      assert SlotsAgree(cfg, s, x);
    }
    SameViewsKeep(cfg, Release(cfg, s, l), released, {t});
    match VerdictOf(cfg, s, l, output)
    case Invalid =>
      InvalidKeeps(cfg, released, lease.executor, t);
    case Success(_) => VerifiedSuccessKeeps(cfg, released, l, lease, output, sinkThrows);
    case Permanent => if released.tasks[t].phase == Committed { BusyClosesOpening(cfg, released, t, released); }
    case Retryable =>
      if released.tasks[t].phase == Committed {
        BusyClosesOpening(cfg, released, t, released);
      } else {
        AttemptLostKeeps(cfg, released, t, lease.executor);
      }
  }

  /** Counting a loss never sends a task back to waiting, nor fails the build. */
  lemma CountLossNeverBlocks(cfg: Config, s: State, l: nat, e: nat, t: nat)
    requires Shaped(cfg, s) && e < cfg.Executors() && t < cfg.Tasks()
    ensures CountLoss(cfg, s, l, e).tasks[t].phase in {s.tasks[t].phase, Ready}
    ensures CountLoss(cfg, s, l, e).failure == s.failure
  {
  }

  /** A lost attempt: the loss is counted, then the task retried or given up. */
  lemma LostKeeps(cfg: Config, s: State, l: nat, e: nat, t: nat)
    requires Inv(cfg, s, {t}) && e < cfg.Executors() && t < cfg.Tasks()
    requires s.tasks[t].phase != Waiting && s.failure.None?
    ensures var r := AttemptLost(cfg, CountLoss(cfg, s, l, e), t, e);
            r.failure.None? ==> Inv(cfg, r, {})
  {
    CountLossKeeps(cfg, s, l, e, {t});
    CountLossNeverBlocks(cfg, s, l, e, t);
    AttemptLostKeeps(cfg, CountLoss(cfg, s, l, e), t, e);
  }

  /** An invalid result: the executor is quarantined, then the task retried or given up. */
  lemma InvalidKeeps(cfg: Config, s: State, e: nat, t: nat)
    requires Inv(cfg, s, {t}) && e < cfg.Executors() && t < cfg.Tasks()
    requires s.tasks[t].phase != Waiting && s.failure.None?
    ensures var r := AttemptLost(cfg, Quarantine(cfg, CountInvalid(s), e), t, e);
            r.failure.None? ==> Inv(cfg, r, {})
  {
    var counted := CountInvalid(s);
    SlotHorizons(cfg, s);
    SameViewsKeep(cfg, s, counted, {t});
    QuarantineKeeps(cfg, counted, e, {t});
    QuarantineNeverBlocks(cfg, counted, e, t);
    AttemptLostKeeps(cfg, Quarantine(cfg, counted, e), t, e);
  }

  lemma FailedKeeps(cfg: Config, s: State, l: nat, kind: AttemptFailureKind)
    requires Inv(cfg, s, {}) && l in s.leases && s.failure.None?
    ensures var r := OnFailed(cfg, s, l, kind);
            r.failure.None? ==> Inv(cfg, r, {})
  {
    var lease := s.leases[l];
    var t := lease.task;
    LeasedOrCommitted(cfg, s, l);
    ReleaseKeeps(cfg, s, l);
    var released := Release(cfg, s, l);
    if kind.InvalidResult? {
      InvalidKeeps(cfg, released, lease.executor, t);
    } else {
      LostKeeps(cfg, released, l, lease.executor, t);
    }
  }

  lemma SlotHorizons(cfg: Config, s: State)
    requires Shaped(cfg, s) && SlotViews(cfg, s)
    ensures forall x :: 0 <= x < |s.executors| ==> s.executors[x].lossHorizon <= s.nextLease
  {
    forall x: nat | x < |s.executors| ensures s.executors[x].lossHorizon <= s.nextLease {
      assert SlotsAgree(cfg, s, x);
    }
  }

  lemma RejectedKeeps(cfg: Config, s: State, l: nat, now: int)
    requires Inv(cfg, s, {}) && l in s.leases
    ensures Inv(cfg, OnRejected(cfg, s, l, now), {})
  {
    var lease := s.leases[l];
    LeasedOrCommitted(cfg, s, l);
    ReleaseKeeps(cfg, s, l);
    var released := Release(cfg, s, l);
    var declined := Decline(cfg, released, lease.executor, now);
    SlotHorizons(cfg, released);
    SameViewsKeep(cfg, released, declined, {lease.task});
    RequeueKeeps(cfg, declined, lease.task);
  }

  lemma LeaseEndedKeeps(cfg: Config, s: State, l: nat, now: int)
    requires Inv(cfg, s, {}) && l in s.leases && Ended(s.leases[l], now) && s.failure.None?
    ensures var r := OnLeaseEnded(cfg, s, l, now);
            r.failure.None? ==> Inv(cfg, r, {})
  {
    var lease := s.leases[l];
    var t := lease.task;
    LeasedOrCommitted(cfg, s, l);
    ReleaseKeeps(cfg, s, l);
    var noted := CountEnding(Release(cfg, s, l), lease, now);
    SlotHorizons(cfg, Release(cfg, s, l));
    SameViewsKeep(cfg, Release(cfg, s, l), noted, {t});
    LostKeeps(cfg, noted, l, lease.executor, t);
  }

  lemma HeartbeatKeeps(cfg: Config, s: State, l: nat, now: int)
    requires Inv(cfg, s, {}) && l in s.leases
    ensures Inv(cfg, OnHeartbeat(s, l, now), {})
  {
    var r := OnHeartbeat(s, l, now);
    forall k ensures LeaseKnown(r, k) { assert LeaseKnown(s, k); }
    forall u, k ensures ActiveKnown(r, u, k) { assert ActiveKnown(s, u, k); }
    forall k, m ensures Apart(r, k, m) { assert Apart(s, k, m); }
    forall u ensures AtMostTwo(r, u) { assert AtMostTwo(s, u); }
    forall e ensures SlotsAgree(cfg, r, e) {
      assert SlotsAgree(cfg, s, e);
      assert LeasesOn(r.leases, e) == LeasesOn(s.leases, e);
    }
    forall u ensures Placed(cfg, r, u, {}) { assert Placed(cfg, s, u, {}); }
  }

  /** The loop-head invariant: unless the build failed, every event keeps every view in agreement. */
  lemma StepKeepsInv(cfg: Config, s: State, event: Event)
    requires Inv(cfg, s, {}) && cfg.graph.Inverse() && s.failure.None? && Enabled(cfg, s, event)
    ensures var r := Step(cfg, s, event);
            r.failure.None? ==> Inv(cfg, r, {})
  {
    match event
    case Grant(t, e, speculative, now) => GrantKeeps(cfg, s, t, e, speculative, now);
    case Heartbeat(l, now) => if l in s.leases { HeartbeatKeeps(cfg, s, l, now); }
    case Finished(l, output, sinkThrows) => if l in s.leases { FinishedKeeps(cfg, s, l, output, sinkThrows); }
    case AttemptFailed(l, kind) => if l in s.leases { FailedKeeps(cfg, s, l, kind); }
    case Rejected(l, now) => if l in s.leases { RejectedKeeps(cfg, s, l, now); }
    case LeaseEnded(l, now) =>
      if l in s.leases && Ended(s.leases[l], now) { LeaseEndedKeeps(cfg, s, l, now); }
  }
}
