/** When dispatch leaves nothing leased, the build really is stuck. */
module SchedulerDeadlock {
  import opened TaskGraphs
  import opened SchedulerState
  import opened SchedulerSteps
  import opened SchedulerInvariant

  /** Executor `e` would take nothing more off the ready queue at time `now`. */
  ghost predicate Sated(cfg: Config, s: State, e: nat, now: int)
    requires Shaped(cfg, s)
  {
    Usable(cfg, s, e) && HasFreeSlot(cfg, s, e) && !BackingOff(s, e, now) ==>
      forall t :: t in s.ready && t < |s.tasks| ==> !Pickable(cfg, s, t, e)
  }

  /** What a dispatch round leaves behind. */
  ghost predicate Dispatched(cfg: Config, s: State, now: int)
    requires Shaped(cfg, s)
  {
    forall e :: Sated(cfg, s, e, now)
  }

  /** Following incomplete dependencies ends, for want of a cycle, at a task whose dependencies are complete. */
  lemma UnblockedTaskExists(g: TaskGraph, rank: seq<nat>, done: set<nat>, t: nat) returns (u: nat)
    requires g.Shaped() && g.Ranked(rank) && t < g.Size() && t !in done
    ensures u < g.Size() && u !in done && g.Unblocked(u, done)
    decreases rank[t]
  {
    if g.Unblocked(t, done) {
      u := t;
    } else {
      var d :| d in g.dependencies[t] && d !in done;
      u := UnblockedTaskExists(g, rank, done, d);
    }
  }

  /** With work left and nothing in flight, some task is ready. */
  lemma ReadyTaskExists(cfg: Config, s: State, t: nat) returns (u: nat)
    requires cfg.Valid() && Inv(cfg, s, {}) && s.leases == map[]
    requires t < cfg.Tasks() && t !in s.done
    ensures u in s.ready && u < cfg.Tasks()
  {
    var rank :| cfg.graph.Ranked(rank);
    u := UnblockedTaskExists(cfg.graph, rank, s.done, t);
    assert Placed(cfg, s, u, {});
    forall l ensures l !in s.tasks[u].active { assert ActiveKnown(s, u, l); }
  }

  /** If an executor accepts a ready task, that executor or another one would take a ready task. */
  lemma SomeoneWouldPick(cfg: Config, s: State, t: nat, e: nat) returns (picker: nat)
    requires Shaped(cfg, s) && t in s.ready && t < |s.tasks| && Usable(cfg, s, e) && cfg.Accepts(e, t)
    ensures Usable(cfg, s, picker) && Pickable(cfg, s, t, picker)
  {
    if Pickable(cfg, s, t, e) {
      picker := e;
    } else {
      picker :| picker < cfg.Executors() && picker != e && Usable(cfg, s, picker)
                && picker !in s.tasks[t].avoid && cfg.Accepts(picker, t);
    }
  }

  lemma IdleExecutorsRefuse(cfg: Config, s: State, now: int, t: nat, e: nat)
    requires cfg.Valid() && Inv(cfg, s, {}) && Dispatched(cfg, s, now)
    requires s.leases == map[] && !AnyBackingOff(cfg, s, now) && t in s.ready
    ensures Usable(cfg, s, e) ==> !Pickable(cfg, s, t, e)
  {
    assert LeasesOn(s.leases, e) == {};
    assert SlotsAgree(cfg, s, e) && Sated(cfg, s, e, now);
  }

  /** `no_usable_executor` is reported only when there is a ready task and no executor that is not
      quarantined accepts any ready task. */
  lemma NoFalseDeadlock(cfg: Config, s: State, now: int, t: nat)
    requires cfg.Valid() && Inv(cfg, s, {}) && Dispatched(cfg, s, now)
    requires s.leases == map[] && !AnyBackingOff(cfg, s, now)
    requires t < cfg.Tasks() && t !in s.done
    ensures s.ready != {}
    ensures forall u, e :: u in s.ready && Usable(cfg, s, e) ==> !cfg.Accepts(e, u)
  {
    var ready := ReadyTaskExists(cfg, s, t);
    forall u, e | u in s.ready && Usable(cfg, s, e) ensures !cfg.Accepts(e, u) {
      if cfg.Accepts(e, u) {
        var picker := SomeoneWouldPick(cfg, s, u, e);
        IdleExecutorsRefuse(cfg, s, now, u, picker);
      }
    }
  }

  /** Such a state is dead: whatever could still happen changes nothing, now or later. */
  lemma DeadlockIsReal(cfg: Config, s: State, event: Event)
    requires Shaped(cfg, s) && s.leases == map[]
    requires forall u, e :: u in s.ready && Usable(cfg, s, e) ==> !cfg.Accepts(e, u)
    requires Enabled(cfg, s, event)
    ensures Step(cfg, s, event) == s
  {
  }

  // ---- What granting keeps ----

  /** Granting takes tasks off the queue and fills slots; it changes nobody's standing. */
  ghost predicate OnlyGranted(s: State, r: State) {
    && r.ready <= s.ready && r.failure == s.failure && r.done == s.done && s.leases.Keys <= r.leases.Keys
    && |r.tasks| == |s.tasks| && |r.executors| == |s.executors|
    && (forall t :: 0 <= t < |s.tasks| ==> r.tasks[t].avoid == s.tasks[t].avoid)
    && (forall e :: 0 <= e < |s.executors| ==>
          && r.executors[e].quarantined == s.executors[e].quarantined
          && r.executors[e].declinedUntil == s.executors[e].declinedUntil
          && r.executors[e].active >= s.executors[e].active)
  }

  lemma GrantOnlyGrants(cfg: Config, origin: State, s: State, t: nat, e: nat, speculative: bool, now: int)
    requires Shaped(cfg, s) && t < cfg.Tasks() && e < cfg.Executors() && OnlyGranted(origin, s)
    ensures OnlyGranted(origin, GrantLease(cfg, s, t, e, speculative, now))
  {
  }

  lemma GrantInRange(cfg: Config, s: State, t: nat, e: nat, speculative: bool, now: int)
    requires Shaped(cfg, s) && MayGrant(cfg, s, t, e, speculative, now)
    ensures t < cfg.Tasks() && e < cfg.Executors()
  {
  }

  lemma NothingGranted(s: State)
    ensures OnlyGranted(s, s)
  {
  }

  lemma StandingKept(s: State, r: State, e: nat)
    requires OnlyGranted(s, r) && e < |s.executors|
    ensures |r.executors| == |s.executors| && r.failure == s.failure
    ensures r.executors[e].quarantined == s.executors[e].quarantined
    ensures r.executors[e].declinedUntil == s.executors[e].declinedUntil
    ensures forall now :: BackingOff(r, e, now) <==> BackingOff(s, e, now)
  {
  }

  lemma LeasesKept(s: State, r: State)
    requires OnlyGranted(s, r)
    ensures r.done == s.done && (r.leases == map[] ==> s.leases == map[])
  {
    if r.leases == map[] { assert s.leases.Keys == {}; }
  }

  lemma OnlyGrantedTransitive(a: State, b: State, c: State)
    requires OnlyGranted(a, b) && OnlyGranted(b, c)
    ensures OnlyGranted(a, c)
  {
  }

  /** An executor that would take nothing takes nothing after more grants either. */
  lemma SatedKept(cfg: Config, s: State, r: State, e: nat, now: int)
    requires Shaped(cfg, s) && Shaped(cfg, r) && OnlyGranted(s, r) && Sated(cfg, s, e, now)
    ensures Sated(cfg, r, e, now)
  {
    if Usable(cfg, r, e) && HasFreeSlot(cfg, r, e) && !BackingOff(r, e, now) {
      forall t | t in r.ready && t < |r.tasks| ensures !Pickable(cfg, r, t, e) {
        assert HasOtherUsable(cfg, r, t, e) <==> HasOtherUsable(cfg, s, t, e);
        assert !Pickable(cfg, s, t, e);
      }
    }
  }

  lemma BackingOffIsSated(cfg: Config, s: State, e: nat, now: int)
    requires Shaped(cfg, s) && e < |s.executors| && s.executors[e].declinedUntil > now
    ensures Sated(cfg, s, e, now)
  {
  }

  lemma NobodyIsSated(cfg: Config, s: State, e: nat, now: int)
    requires Shaped(cfg, s) && e >= cfg.Executors()
    ensures Sated(cfg, s, e, now)
  {
  }

  lemma NotBackingOff(s: State, e: nat, now: int)
    requires e < |s.executors| && s.executors[e].declinedUntil <= now
    ensures !BackingOff(s, e, now)
  {
  }

  /** Executor `e` has no straggler left to duplicate at time `now`. */
  ghost predicate Quiet(cfg: Config, s: State, e: nat, now: int)
    requires Shaped(cfg, s)
  {
    Usable(cfg, s, e) && HasFreeSlot(cfg, s, e) && !BackingOff(s, e, now) ==> forall l :: !Duplicable(cfg, s, l, e)
  }

  lemma QuietWhen(cfg: Config, s: State, e: nat, now: int)
    requires Shaped(cfg, s) && e < cfg.Executors()
    requires !Usable(cfg, s, e) || !HasFreeSlot(cfg, s, e) || forall l :: !Duplicable(cfg, s, l, e)
    ensures Quiet(cfg, s, e, now)
  {
  }

  lemma BackingOffIsQuiet(cfg: Config, s: State, e: nat, now: int)
    requires Shaped(cfg, s) && e < |s.executors| && s.executors[e].declinedUntil > now
    ensures Quiet(cfg, s, e, now)
  {
  }

  lemma NobodyIsQuiet(cfg: Config, s: State, e: nat, now: int)
    requires Shaped(cfg, s) && e >= cfg.Executors()
    ensures Quiet(cfg, s, e, now)
  {
  }

  lemma StragglerIsLeased(cfg: Config, s: State, l: nat, e: nat)
    requires Shaped(cfg, s) && Duplicable(cfg, s, l, e)
    ensures l in s.leases
  {
  }

  /** Duplicating a straggler gives no one a new straggler: its task now has two attempts. */
  lemma DuplicationKeepsQuiet(cfg: Config, s: State, l: nat, picker: nat, e: nat, now: int)
    requires Inv(cfg, s, {}) && picker < cfg.Executors() && Duplicable(cfg, s, l, picker) && Quiet(cfg, s, e, now)
    ensures Quiet(cfg, GrantLease(cfg, s, s.leases[l].task, picker, true, now), e, now)
  {
    var t := s.leases[l].task;
    var r := GrantLease(cfg, s, t, picker, true, now);
    if Usable(cfg, r, e) && HasFreeSlot(cfg, r, e) && !BackingOff(r, e, now) {
      assert ActiveKnown(s, t, s.nextLease) && LeaseKnown(s, s.nextLease);
      assert |r.tasks[t].active| == 2;
      forall k ensures !Duplicable(cfg, r, k, e) {
        if k in s.leases && s.leases[k].task != t { assert !Duplicable(cfg, s, k, e); }
      }
    }
  }

  /** Nothing is ready that anyone who is left could take. */
  ghost predicate Stuck(cfg: Config, s: State)
    requires Shaped(cfg, s)
  {
    && s.ready != {} && s.leases == map[]
    && forall u, e :: u in s.ready && Usable(cfg, s, e) ==> !cfg.Accepts(e, u)
  }
}
