/**
 What one turn of the scheduler's loop adds to a run: the grants of one dispatch round, the inbox, and
 the sweep of ended leases (scheduler_run.cpp, scheduler_dispatch.cpp).
 */
module SchedulerTurns {
  import opened SchedulerState
  import opened SchedulerSteps
  import opened SchedulerRuns
  import D = SchedulerDeadlock
  import opened ReadyQueues

  /** What one turn of the loop meets: a cancellation, the clock at dispatch, the inbox, the clock after it. */
  datatype Tick = Tick(cancelled: bool, dispatchedAt: int, events: seq<Event>, appliedAt: int)

  predicate FromInbox(event: Event) {
    event.Heartbeat? || event.Finished? || event.AttemptFailed? || event.Rejected?
  }

  /** Run `b` continues run `a`. */
  ghost predicate Extends(a: Run, b: Run) {
    && |a.states| == |a.events| + 1 && |b.states| == |b.events| + 1
    && a.events <= b.events && a.states <= b.states
  }

  lemma ExtendsItself(run: Run)
    requires |run.states| == |run.events| + 1
    ensures Extends(run, run)
  {
  }

  lemma ExtendsTransitive(a: Run, b: Run, c: Run)
    requires Extends(a, b) && Extends(b, c)
    ensures Extends(a, c)
  {
  }

  lemma ExtendsOneStep(cfg: Config, run: Run, event: Event)
    requires |run.states| == |run.events| + 1 && Shaped(cfg, Last(run))
    requires event.Grant? ==> event.task < cfg.Tasks() && event.executor < cfg.Executors()
    ensures Extends(run, Extend(cfg, run, event))
  {
  }

  // ---- What dispatch grants ----

  /** `t` is the first ready task, in dispatch order, of those `e` should take. */
  ghost predicate FirstPick(cfg: Config, s: State, t: nat, e: nat)
    requires Shaped(cfg, s)
  {
    && t in s.ready && t < cfg.Tasks() && Pickable(cfg, s, t, e)
    && forall u :: u in s.ready && u < cfg.Tasks() && Pickable(cfg, s, u, e) ==> u == t || Before(cfg.graph, t, u)
  }

  /** Of the stragglers `e` may duplicate, the attempt behind lease `l` was started first. */
  ghost predicate OldestLease(cfg: Config, s: State, l: nat, e: nat)
    requires Shaped(cfg, s)
  {
    && Duplicable(cfg, s, l, e)
    && forall k :: Duplicable(cfg, s, k, e) ==> s.leases[l].grantedAt <= s.leases[k].grantedAt
  }

  /** The grant dispatch chooses for an executor, not just one it may make. */
  ghost predicate Chosen(cfg: Config, s: State, t: nat, e: nat, speculative: bool)
    requires Shaped(cfg, s)
  {
    if speculative then s.ready == {} && exists l :: OldestLease(cfg, s, l, e) && s.leases[l].task == t
    else FirstPick(cfg, s, t, e)
  }

  /** Step `k` is such a grant, to one of the executors from `lo` to below `hi`. */
  ghost predicate GrantAt(cfg: Config, run: Run, k: nat, now: int, speculative: bool, lo: nat, hi: nat) {
    && k < |run.events| && k < |run.states| && Shaped(cfg, run.states[k])
    && match run.events[k]
       case Grant(t, e, duplicate, at) =>
         duplicate == speculative && at == now && lo <= e < hi && Chosen(cfg, run.states[k], t, e, speculative)
       case _ => false
  }

  ghost predicate ByExecutor(run: Run, j: nat, k: nat) {
    j < |run.events| && k < |run.events| && run.events[j].Grant? && run.events[k].Grant?
    && run.events[j].executor <= run.events[k].executor
  }

  /** Steps `a` to below `b` are such grants, one executor after the other. */
  ghost predicate Granted(cfg: Config, run: Run, a: nat, b: nat, now: int, speculative: bool, lo: nat, hi: nat) {
    && a <= b <= |run.events|
    && (forall k :: a <= k < b ==> GrantAt(cfg, run, k, now, speculative, lo, hi))
    && (forall j, k :: a <= j < k < b ==> ByExecutor(run, j, k))
  }

  lemma NothingGrantedYet(cfg: Config, run: Run, now: int, speculative: bool, lo: nat, hi: nat)
    ensures Granted(cfg, run, |run.events|, |run.events|, now, speculative, lo, hi)
  {
  }

  lemma GrantStays(cfg: Config, run: Run, longer: Run, k: nat, now: int, speculative: bool, lo: nat, hi: nat, below: nat, above: nat)
    requires Extends(run, longer) && GrantAt(cfg, run, k, now, speculative, lo, hi) && below <= lo && hi <= above
    ensures GrantAt(cfg, longer, k, now, speculative, below, above)
  {
    assert longer.events[k] == run.events[k] && longer.states[k] == run.states[k];
  }

  lemma GrantedStays(cfg: Config, run: Run, longer: Run, a: nat, b: nat, now: int, speculative: bool, lo: nat, hi: nat)
    requires Extends(run, longer) && Granted(cfg, run, a, b, now, speculative, lo, hi)
    ensures Granted(cfg, longer, a, b, now, speculative, lo, hi)
  {
    hide Extends, GrantAt;
    forall k: nat | a <= k < b ensures GrantAt(cfg, longer, k, now, speculative, lo, hi) {
      assert GrantAt(cfg, run, k, now, speculative, lo, hi);
      GrantStays(cfg, run, longer, k, now, speculative, lo, hi, lo, hi);
    }
    forall j: nat, k: nat | a <= j < k < b ensures ByExecutor(longer, j, k) {
      assert ByExecutor(run, j, k);
      OrderStays(run, longer, j, k);
    }
    SameLength(run, longer);
  }

  lemma SameLength(run: Run, longer: Run)
    requires Extends(run, longer)
    ensures |run.events| <= |longer.events| && |longer.states| == |longer.events| + 1
  {
  }

  lemma OrderStays(run: Run, longer: Run, j: nat, k: nat)
    requires Extends(run, longer) && ByExecutor(run, j, k)
    ensures ByExecutor(longer, j, k)
  {
    assert longer.events[j] == run.events[j] && longer.events[k] == run.events[k];
  }

  /** One more grant to the same executor. */
  lemma GrantedOneMore(cfg: Config, run: Run, a: nat, t: nat, e: nat, speculative: bool, now: int)
    requires |run.states| == |run.events| + 1 && Shaped(cfg, Last(run)) && t < cfg.Tasks() && e < cfg.Executors()
    requires Granted(cfg, run, a, |run.events|, now, speculative, e, e + 1) && Chosen(cfg, Last(run), t, e, speculative)
    ensures var longer := Extend(cfg, run, Grant(t, e, speculative, now));
            Extends(run, longer) && Granted(cfg, longer, a, |longer.events|, now, speculative, e, e + 1)
  {
    hide Chosen, Step;
    var longer := Extend(cfg, run, Grant(t, e, speculative, now));
    var n := |run.events|;
    GrantedStays(cfg, run, longer, a, n, now, speculative, e, e + 1);
    assert longer.states[n] == Last(run) && GrantAt(cfg, longer, n, now, speculative, e, e + 1);
    forall j: nat | a <= j < n ensures ByExecutor(longer, j, n) {
      assert GrantAt(cfg, longer, j, now, speculative, e, e + 1);
    }
  }

  /** Grants to later executors after grants to earlier ones. */
  lemma GrantedInTurn(cfg: Config, run: Run, longer: Run, a: nat, now: int, speculative: bool, mid: nat, hi: nat)
    requires Extends(run, longer) && mid <= hi
    requires Granted(cfg, run, a, |run.events|, now, speculative, 0, mid)
    requires Granted(cfg, longer, |run.events|, |longer.events|, now, speculative, mid, hi)
    ensures Granted(cfg, longer, a, |longer.events|, now, speculative, 0, hi)
  {
    hide Extends;
    var n := |run.events|;
    GrantedStays(cfg, run, longer, a, n, now, speculative, 0, mid);
    hide Chosen;
    forall k: nat | a <= k < |longer.events| ensures GrantAt(cfg, longer, k, now, speculative, 0, hi) {
      if k < n { assert GrantAt(cfg, longer, k, now, speculative, 0, mid); }
      else { assert GrantAt(cfg, longer, k, now, speculative, mid, hi); }
    }
    forall j: nat, k: nat | a <= j < k < |longer.events| ensures ByExecutor(longer, j, k) {
      if j < n <= k {
        assert GrantAt(cfg, longer, j, now, speculative, 0, mid);
        assert GrantAt(cfg, longer, k, now, speculative, mid, hi);
      }
    }
  }

  // ---- What the sweep ends ----

  /** Step `k` ends a lease past its expiry or its deadline. */
  ghost predicate EndsAt(run: Run, k: nat, now: int) {
    && k < |run.events| && k < |run.states| && run.states[k].failure.None?
    && match run.events[k]
       case LeaseEnded(l, at) => at == now && l in run.states[k].leases && Ended(run.states[k].leases[l], now)
       case _ => false
  }

  ghost predicate NoneEnded(s: State, now: int) {
    s.failure.None? ==> forall l :: l in s.leases ==> !Ended(s.leases[l], now)
  }

  /** From step `a` to the end of the run, every lease past its time was ended, and nothing else happened. */
  ghost predicate Swept(run: Run, a: nat, b: nat, now: int) {
    && a <= b < |run.states|
    && (forall k :: a <= k < b ==> EndsAt(run, k, now))
    && NoneEnded(run.states[b], now)
  }

  lemma EndsOneMore(cfg: Config, run: Run, a: nat, l: nat, now: int)
    requires |run.states| == |run.events| + 1 && Shaped(cfg, Last(run)) && Last(run).failure.None?
    requires forall k :: a <= k < |run.events| ==> EndsAt(run, k, now)
    requires l in Last(run).leases && Ended(Last(run).leases[l], now)
    ensures var longer := Extend(cfg, run, LeaseEnded(l, now));
            Extends(run, longer) && forall k :: a <= k < |longer.events| ==> EndsAt(longer, k, now)
  {
    hide Step, Ended;
    var longer := Extend(cfg, run, LeaseEnded(l, now));
    forall k: nat | a <= k < |longer.events| ensures EndsAt(longer, k, now) {
      if k < |run.events| { assert EndsAt(run, k, now); }
    }
  }

  lemma SweptStays(run: Run, longer: Run, a: nat, b: nat, now: int)
    requires Extends(run, longer) && Swept(run, a, b, now)
    ensures Swept(longer, a, b, now)
  {
    hide Ended, NoneEnded;
    forall k: nat | a <= k < b ensures EndsAt(longer, k, now) {
      assert EndsAt(run, k, now);
      assert longer.events[k] == run.events[k] && longer.states[k] == run.states[k];
    }
    assert longer.states[b] == run.states[b];
  }

  // ---- One turn ----

  /** Where a turn's parts lie in the run: grants from `start`, duplicates, inbox, sweep, up to `end`. */
  datatype Turn = Turn(start: nat, duplicates: nat, inbox: nat, sweep: nat, end: nat)

  /** The build is neither done nor cancelled when the turn begins. */
  ghost predicate Begins(cfg: Config, s: State, tick: Tick) {
    !tick.cancelled && s.failure.None? && !HasSucceeded(cfg, s)
  }

  /** Dispatch left nothing more to grant, and something to wait for. */
  ghost predicate Waits(cfg: Config, s: State, now: int) {
    && Shaped(cfg, s) && D.Dispatched(cfg, s, now)
    && (cfg.speculativeDuplicates && s.ready == {} ==> forall e :: D.Quiet(cfg, s, e, now))
    && (s.leases != map[] || AnyBackingOff(cfg, s, now))
  }

  ghost predicate IsTurn(cfg: Config, run: Run, tick: Tick, turn: Turn) {
    && turn.start <= turn.duplicates <= turn.inbox <= turn.sweep <= turn.end <= |run.events|
    && |run.states| == |run.events| + 1
    && Begins(cfg, run.states[turn.start], tick)
    && Granted(cfg, run, turn.start, turn.duplicates, tick.dispatchedAt, false, 0, cfg.Executors())
    && Granted(cfg, run, turn.duplicates, turn.inbox, tick.dispatchedAt, true, 0, cfg.Executors())
    && Waits(cfg, run.states[turn.inbox], tick.dispatchedAt)
    && run.events[turn.inbox..turn.sweep] == tick.events
    && Swept(run, turn.sweep, turn.end, tick.appliedAt)
  }

  /** The parts of a turn, one after the other, make a turn. */
  lemma TurnTaken(cfg: Config, first: Run, dispatched: Run, applied: Run, run: Run, tick: Tick, turn: Turn)
    requires Extends(first, dispatched) && Extends(dispatched, applied) && Extends(applied, run)
    requires turn == Turn(|first.events|, turn.duplicates, |dispatched.events|, |applied.events|, |run.events|)
    requires Begins(cfg, Last(first), tick) && Waits(cfg, Last(dispatched), tick.dispatchedAt)
    requires Granted(cfg, dispatched, turn.start, turn.duplicates, tick.dispatchedAt, false, 0, cfg.Executors())
    requires Granted(cfg, dispatched, turn.duplicates, turn.inbox, tick.dispatchedAt, true, 0, cfg.Executors())
    requires applied.events == dispatched.events + tick.events
    requires Swept(run, turn.sweep, turn.end, tick.appliedAt)
    ensures IsTurn(cfg, run, tick, turn)
  {
    hide Granted, Swept, Waits, Begins;
    ExtendsTransitive(dispatched, applied, run);
    GrantedStays(cfg, dispatched, run, turn.start, turn.duplicates, tick.dispatchedAt, false, 0, cfg.Executors());
    GrantedStays(cfg, dispatched, run, turn.duplicates, turn.inbox, tick.dispatchedAt, true, 0, cfg.Executors());
    GrantedBounds(cfg, run, turn, tick.dispatchedAt);
    assert run.states[turn.start] == Last(first) && run.states[turn.inbox] == Last(dispatched);
    assert run.events[turn.inbox..turn.sweep] == applied.events[turn.inbox..turn.sweep] == tick.events;
  }

  lemma GrantedBounds(cfg: Config, run: Run, turn: Turn, now: int)
    requires Granted(cfg, run, turn.start, turn.duplicates, now, false, 0, cfg.Executors())
    requires Granted(cfg, run, turn.duplicates, turn.inbox, now, true, 0, cfg.Executors())
    ensures turn.start <= turn.duplicates <= turn.inbox <= |run.events|
  {
  }

  lemma TurnStays(cfg: Config, run: Run, longer: Run, tick: Tick, turn: Turn)
    requires Extends(run, longer) && IsTurn(cfg, run, tick, turn)
    ensures IsTurn(cfg, longer, tick, turn)
  {
    hide Granted, Swept, Waits, Begins;
    GrantedStays(cfg, run, longer, turn.start, turn.duplicates, tick.dispatchedAt, false, 0, cfg.Executors());
    GrantedStays(cfg, run, longer, turn.duplicates, turn.inbox, tick.dispatchedAt, true, 0, cfg.Executors());
    SweptStays(run, longer, turn.sweep, turn.end, tick.appliedAt);
    assert longer.states[turn.start] == run.states[turn.start] && longer.states[turn.inbox] == run.states[turn.inbox];
    assert longer.events[turn.inbox..turn.sweep] == run.events[turn.inbox..turn.sweep];
  }

  // ---- All turns ----

  function EndOf(turns: seq<Turn>): nat {
    if turns == [] then 0 else turns[|turns| - 1].end
  }

  ghost predicate TurnAt(cfg: Config, run: Run, ticks: seq<Tick>, turns: seq<Turn>, i: nat) {
    i < |turns| ==> i < |ticks| && IsTurn(cfg, run, ticks[i], turns[i]) && turns[i].start == EndOf(turns[..i])
  }

  /** The whole run is its turns, one for each of the first ticks. */
  ghost predicate MadeOfTurns(cfg: Config, run: Run, ticks: seq<Tick>, turns: seq<Turn>) {
    |turns| <= |ticks| && |run.events| == EndOf(turns) && forall i :: TurnAt(cfg, run, ticks, turns, i)
  }

  lemma NoTurnsYet(cfg: Config, run: Run, ticks: seq<Tick>)
    requires run.events == []
    ensures MadeOfTurns(cfg, run, ticks, [])
  {
  }

  lemma OneTurnMore(cfg: Config, run: Run, longer: Run, ticks: seq<Tick>, turns: seq<Turn>, turn: Turn)
    requires MadeOfTurns(cfg, run, ticks, turns) && Extends(run, longer) && |turns| < |ticks|
    requires IsTurn(cfg, longer, ticks[|turns|], turn) && turn.start == |run.events| && turn.end == |longer.events|
    ensures MadeOfTurns(cfg, longer, ticks, turns + [turn])
  {
    hide IsTurn, Extends;
    var more := turns + [turn];
    forall i: nat ensures TurnAt(cfg, longer, ticks, more, i) {
      if i < |turns| {
        assert TurnAt(cfg, run, ticks, turns, i);
        assert more[..i] == turns[..i];
        TurnStays(cfg, run, longer, ticks[i], turns[i]);
      } else if i == |turns| {
        assert more[..i] == turns;
      }
    }
  }
}
