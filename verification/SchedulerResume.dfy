/**
 Where a run starts: resumed results are checked and committed, then the first tasks become ready.
 */
module SchedulerResume {
  import opened Basics
  import opened ResultVerification
  import opened TaskGraphs
  import opened SchedulerState
  import opened SchedulerInvariant

  datatype ResumeError = UnknownTask | ResumedTwice | InvalidResumed(defect: Defect) | NotASuccess

  function NewRun(cfg: Config): State {
    State(seq(cfg.Tasks(), _ => FreshTask()), seq(cfg.Executors(), _ => FreshExecutor()),
          map[], {}, {}, 1, map[], None, [], NO_STATS)
  }

  function ResumeOne(cfg: Config, s: State, r: CommittedResult): (next: Result<State, ResumeError>)
    requires Shaped(cfg, s)
    ensures next.Ok? ==> Shaped(cfg, next.value)
  {
    var result := r.output.result;
    var index := Find(cfg.graph, result.taskId);
    if index.None? then Err(UnknownTask)
    else if s.tasks[index.value].phase == Committed then Err(ResumedTwice)
    else
      var defect := FindResultDefect(cfg.hashing, cfg.graph.nodes[index.value].taskId, result.attempt, r.output);
      if defect.Some? then Err(InvalidResumed(defect.value))
      else if result.status != Succeeded then Err(NotASuccess)
      else
        var task := s.tasks[index.value].(phase := Committed,
                                          committedAttempt := result.attempt,
                                          committedExecutor := r.executorId,
                                          committedDigest := result.outputDigest);
        Ok(s.(tasks := s.tasks[index.value := task],
              done := s.done + {index.value},
              stats := s.stats.(resumed := s.stats.resumed + 1)))
  }

  /** Marks the first results committed, in order, stopping at the first bad one. */
  function ApplyResumed(cfg: Config, resumed: seq<CommittedResult>): (next: Result<State, ResumeError>)
    requires cfg.Shaped()
    ensures next.Ok? ==> Shaped(cfg, next.value)
  {
    if resumed == [] then Ok(NewRun(cfg))
    else
      match ApplyResumed(cfg, resumed[..|resumed| - 1])
      case Err(error) => Err(error)
      case Ok(s) => ResumeOne(cfg, s, resumed[|resumed| - 1])
  }

  /** The tasks that are ready once every resumed task is known. */
  function InitiallyReady(cfg: Config, s: State): set<nat>
    requires Shaped(cfg, s)
  {
    set t: nat | t < |s.tasks| && s.tasks[t].phase == Waiting && cfg.graph.Unblocked(t, s.done)
  }

  function Start(cfg: Config, s: State): (r: State)
    requires Shaped(cfg, s)
    ensures Shaped(cfg, r)
  {
    var ready := InitiallyReady(cfg, s);
    s.(tasks := seq(|s.tasks|, t requires 0 <= t < |s.tasks| =>
                   if t in ready then s.tasks[t].(phase := Ready) else s.tasks[t]),
       ready := s.ready + ready)
  }

  /** A state no event has touched yet: some tasks committed by an earlier run, the rest waiting. */
  ghost predicate Untouched(cfg: Config, s: State) {
    && Shaped(cfg, s)
    && s.leases == map[] && s.ready == {} && s.sink == map[] && s.nextLease == 1 && s.failure.None? && s.incidents == []
    && (forall t :: t in s.done ==> t < |s.tasks|)
    && (forall t :: 0 <= t < |s.tasks| ==>
          && s.tasks[t].phase == (if t in s.done then Committed else Waiting)
          && s.tasks[t].attemptsStarted == s.tasks[t].failedAttempts == 0
          && s.tasks[t].active == s.tasks[t].avoid == {})
    && (forall e :: 0 <= e < |s.executors| ==> s.executors[e] == FreshExecutor())
    && s.stats == NO_STATS.(resumed := s.stats.resumed)
  }

  lemma ApplyResumedIsUntouched(cfg: Config, resumed: seq<CommittedResult>)
    requires cfg.Shaped() && ApplyResumed(cfg, resumed).Ok?
    ensures Untouched(cfg, ApplyResumed(cfg, resumed).value)
  {
    if resumed != [] {
      ApplyResumedIsUntouched(cfg, resumed[..|resumed| - 1]);
    }
  }

  lemma StartEstablishesInv(cfg: Config, s: State)
    requires Untouched(cfg, s)
    ensures Inv(cfg, Start(cfg, s), {})
  {
    var r := Start(cfg, s);
    forall e ensures SlotsAgree(cfg, r, e) {
      assert LeasesOn(r.leases, e) == {};
    }
  }

  /** A resumed result is acceptable for task `t` when it is a verified success of that task. */
  ghost predicate Resumable(cfg: Config, r: CommittedResult, t: nat) {
    && t < cfg.Tasks()
    && Judge(cfg.hashing, cfg.graph.nodes[t].taskId, r.output.result.attempt, r.output).Success?
  }

  lemma ResumeOneIsExact(cfg: Config, s: State, r: CommittedResult, t: nat)
    requires Untouched(cfg, s) && cfg.graph.DistinctNames() && t < cfg.Tasks()
    requires cfg.graph.nodes[t].taskId == r.output.result.taskId
    ensures ResumeOne(cfg, s, r).Ok? <==> t !in s.done && Resumable(cfg, r, t)
    ensures ResumeOne(cfg, s, r).Ok? ==>
              var next := ResumeOne(cfg, s, r).value;
              && next.done == s.done + {t}
              && next.stats.resumed == s.stats.resumed + 1
              && RecordOf(next.tasks[t]) == CommitmentOf(r)
              && forall u :: 0 <= u < |s.tasks| && u != t ==> next.tasks[u] == s.tasks[u]
  {
    assert Find(cfg.graph, r.output.result.taskId) == Some(t);
  }

  /** Why a resumed result is refused: it names no task, its task was resumed before, it does not verify, or it is of a
      failure. */
  lemma RefusalMeans(cfg: Config, s: State, r: CommittedResult)
    requires Untouched(cfg, s) && cfg.graph.DistinctNames()
    ensures var id, error := r.output.result.taskId, ResumeOne(cfg, s, r);
            && (error == Err(UnknownTask) <==> forall t :: 0 <= t < cfg.Tasks() ==> cfg.graph.nodes[t].taskId != id)
            && forall t: nat :: t < cfg.Tasks() && cfg.graph.nodes[t].taskId == id ==>
                 var verified := Verified(cfg.hashing, id, r.output.result.attempt, r.output);
                 && (error == Err(ResumedTwice) <==> t in s.done)
                 && (error.Err? && error.error.InvalidResumed? <==> t !in s.done && !verified)
                 && (error == Err(NotASuccess) <==> t !in s.done && verified && r.output.result.status == Failed)
  {
    var id := r.output.result.taskId;
    GateIsExact(cfg.hashing, id, r.output.result.attempt, r.output);
    hide FindResultDefect, Verified;
    forall t: nat | t < cfg.Tasks() && cfg.graph.nodes[t].taskId == id ensures Find(cfg.graph, id) == Some(t) {}
  }

  /** `task[i]` is the graph's task that the i-th resumed result names. */
  ghost predicate NamesTasks(cfg: Config, resumed: seq<CommittedResult>, task: seq<nat>) {
    && |task| == |resumed|
    && forall i :: 0 <= i < |resumed| ==>
         task[i] < cfg.Tasks() && cfg.graph.nodes[task[i]].taskId == resumed[i].output.result.taskId
  }

  ghost predicate AllResumable(cfg: Config, resumed: seq<CommittedResult>, task: seq<nat>)
    requires |task| == |resumed|
  {
    forall i :: 0 <= i < |resumed| ==> Resumable(cfg, resumed[i], task[i])
  }

  ghost predicate RemembersResults(s: State, resumed: seq<CommittedResult>, task: seq<nat>)
    requires |task| == |resumed|
  {
    forall i :: 0 <= i < |resumed| ==>
                  task[i] < |s.tasks| && RecordOf(s.tasks[task[i]]) == CommitmentOf(resumed[i])
  }

  lemma AllResumableSnoc(cfg: Config, resumed: seq<CommittedResult>, task: seq<nat>, r: CommittedResult, t: nat)
    requires |task| == |resumed|
    ensures AllResumable(cfg, resumed + [r], task + [t]) <==> AllResumable(cfg, resumed, task) && Resumable(cfg, r, t)
  {
    if AllResumable(cfg, resumed + [r], task + [t]) {
      forall i | 0 <= i < |resumed| ensures Resumable(cfg, resumed[i], task[i]) {
        assert Resumable(cfg, (resumed + [r])[i], (task + [t])[i]);
      }
      assert Resumable(cfg, (resumed + [r])[|resumed|], (task + [t])[|task|]);
    }
  }

  lemma ResumeOneMore(cfg: Config, before: State, resumed: seq<CommittedResult>, task: seq<nat>, r: CommittedResult, t: nat)
    requires Untouched(cfg, before) && cfg.graph.DistinctNames() && |task| == |resumed|
    requires t < cfg.Tasks() && cfg.graph.nodes[t].taskId == r.output.result.taskId
    requires before.done == (set u | u in task) && RemembersResults(before, resumed, task)
    ensures ResumeOne(cfg, before, r).Ok? <==> t !in task && Resumable(cfg, r, t)
    ensures ResumeOne(cfg, before, r).Ok? ==>
              var next := ResumeOne(cfg, before, r).value;
              && next.done == (set u | u in task + [t])
              && next.stats.resumed == before.stats.resumed + 1
              && RemembersResults(next, resumed + [r], task + [t])
  {
    hide Untouched, Resumable;
    ResumeOneIsExact(cfg, before, r, t);
  }

  /** Resuming succeeds exactly when the results are verified successes of distinct tasks of the graph,
      and then commits exactly those tasks, each as its result says. */
  lemma {:induction false} ResumeIsExact(cfg: Config, resumed: seq<CommittedResult>, task: seq<nat>)
    requires cfg.Shaped() && cfg.graph.DistinctNames() && NamesTasks(cfg, resumed, task)
    ensures ApplyResumed(cfg, resumed).Ok? <==> NoRepeats(task) && AllResumable(cfg, resumed, task)
    ensures ApplyResumed(cfg, resumed).Ok? ==>
              var s := ApplyResumed(cfg, resumed).value;
              && s.done == (set t | t in task)
              && s.stats.resumed == |resumed|
              && RemembersResults(s, resumed, task)
  {
    if resumed == [] {
      assert task == [];
    } else {
      var n := |resumed| - 1;
      var earlier, last := resumed[..n], task[n];
      assert resumed == earlier + [resumed[n]] && task == task[..n] + [last];
      ResumeIsExact(cfg, earlier, task[..n]);
      NoRepeatsSnoc(task);
      AllResumableSnoc(cfg, earlier, task[..n], resumed[n], last);
      hide ResumeOne, Resumable, NoRepeats, AllResumable, RemembersResults, Untouched;
      if ApplyResumed(cfg, earlier).Ok? {
        var before := ApplyResumed(cfg, earlier).value;
        ApplyResumedIsUntouched(cfg, earlier);
        assert NamesTasks(cfg, earlier, task[..n]);
        ResumeOneMore(cfg, before, earlier, task[..n], resumed[n], last);
      }
    }
  }

  /** A result that names no task of the graph is refused. */
  lemma UnknownTaskIsRefused(cfg: Config, resumed: seq<CommittedResult>, i: nat)
    requires cfg.Shaped() && i < |resumed|
    requires forall t :: 0 <= t < cfg.Tasks() ==> cfg.graph.nodes[t].taskId != resumed[i].output.result.taskId
    ensures ApplyResumed(cfg, resumed).Err?
  {
    if i < |resumed| - 1 {
      UnknownTaskIsRefused(cfg, resumed[..|resumed| - 1], i);
    }
  }

  /** Resuming one more result continues from the results before it, and a bad one decides the whole. */
  lemma {:induction false} ApplyResumedPrefix(cfg: Config, resumed: seq<CommittedResult>, i: nat)
    requires cfg.Shaped() && i < |resumed| && ApplyResumed(cfg, resumed[..i]).Ok?
    ensures ApplyResumed(cfg, resumed[..i + 1]) == ResumeOne(cfg, ApplyResumed(cfg, resumed[..i]).value, resumed[i])
    ensures ApplyResumed(cfg, resumed[..i + 1]).Err? ==> ApplyResumed(cfg, resumed) == ApplyResumed(cfg, resumed[..i + 1])
    decreases |resumed|
  {
    assert resumed[..i + 1][..i] == resumed[..i];
    if i + 1 == |resumed| {
      assert resumed[..i + 1] == resumed;
    } else {
      var earlier := resumed[..|resumed| - 1];
      assert earlier[..i] == resumed[..i] && earlier[..i + 1] == resumed[..i + 1];
      ApplyResumedPrefix(cfg, earlier, i);
    }
  }
}
