/** A run in which a speculative duplicate takes a task past its retry limit. */
module SchedulerDuplicates {
  import opened Basics
  import opened ResultVerification
  import opened TaskGraphs
  import opened SchedulerState
  import opened SchedulerSteps
  import opened SchedulerResume
  import opened SchedulerRuns

  /** One task allowed one attempt, two executors, speculative duplicates on. */
  function OneShot(): Config {
    Config(
      TaskGraph([TaskNode("task", [], 1, OrderKey("lane", [0]))], [[]], [[]], [1]),
      Hashing((payload: seq<byte>) => [], (outputs: seq<ArtifactRef>) => []),
      ["a", "b"], [1, 1], [false, false], {(0, 0), (1, 0)}, [1], [10], [20],
      true, 3, true, 5)
  }

  lemma OneShotIsValid()
    ensures OneShot().Valid()
  {
    assert OneShot().graph.Ranked([0]);
  }

  function First(): Lease { Lease(0, 0, 1, 10, 0, 10, 20, false) }

  function Duplicate(): Lease { Lease(0, 1, 2, 10, 0, 10, 20, true) }

  function Busy(count: int): Executor { FreshExecutor().(active := count) }

  /** A state of the story: the one task, the executors, the leases and the counters. */
  function Scene(task: Task, executors: seq<Executor>, leases: map<nat, Lease>, ready: set<nat>, next: nat, stats: Stats): State {
    State([task], executors, leases, ready, {}, next, map[], None, [], stats)
  }

  function Scene0(): State {
    Scene(Task(Ready, 0, 0, {}, {}, 0, "", []), [Busy(0), Busy(0)], map[], {0}, 1, NO_STATS)
  }

  function Scene1(): State {
    Scene(Task(Leased, 1, 0, {}, {1}, 0, "", []), [Busy(1), Busy(0)], map[1 := First()], {}, 2,
          NO_STATS.(attemptsStarted := 1))
  }

  function Scene2(): State {
    Scene(Task(Leased, 2, 0, {}, {1, 2}, 0, "", []), [Busy(1), Busy(1)], map[1 := First(), 2 := Duplicate()], {}, 3,
          NO_STATS.(attemptsStarted := 2, speculativeAttempts := 1))
  }

  function Scene3(): State {
    Scene(Task(Leased, 2, 1, {0}, {2}, 0, "", []), [Executor(0, 1, 3, false, 0), Busy(1)], map[2 := Duplicate()], {}, 3,
          NO_STATS.(attemptsStarted := 2, speculativeAttempts := 1))
  }

  function Scene4(): State {
    Scene(Task(Ready, 2, 1, {0}, {}, 0, "", []), [Executor(0, 1, 3, false, 0), Executor(0, 0, 0, false, 5)], map[], {0}, 3,
          NO_STATS.(attemptsStarted := 2, speculativeAttempts := 1, leasesRejected := 1))
  }

  lemma StoryStarts()
    ensures Untouched(OneShot(), NewRun(OneShot())) && Start(OneShot(), NewRun(OneShot())) == Scene0()
  {
    var cfg, s := OneShot(), NewRun(OneShot());
    assert InitiallyReady(cfg, s) == {0};
    assert Start(cfg, s).tasks == Scene0().tasks && Start(cfg, s).executors == Scene0().executors;
  }

  /** The task is started. */
  lemma Scene01()
    ensures MayGrant(OneShot(), Scene0(), 0, 0, false, 0)
    ensures GrantLease(OneShot(), Scene0(), 0, 0, false, 0) == Scene1()
  {
    var r := GrantLease(OneShot(), Scene0(), 0, 0, false, 0);
    assert r.tasks[0].active == {1};
    assert r.tasks == Scene1().tasks && r.executors == Scene1().executors;
    assert r.leases == Scene1().leases && r.ready == {};
  }

  /** The second executor, idle, duplicates it. */
  lemma Scene12()
    ensures MayGrant(OneShot(), Scene1(), 0, 1, true, 0)
    ensures GrantLease(OneShot(), Scene1(), 0, 1, true, 0) == Scene2()
  {
    assert Duplicable(OneShot(), Scene1(), 1, 1) && Scene1().leases[1].task == 0;
    var r := GrantLease(OneShot(), Scene1(), 0, 1, true, 0);
    assert r.tasks[0].active == {1, 2};
    assert r.tasks == Scene2().tasks && r.executors == Scene2().executors;
    assert r.leases == Scene2().leases;
  }

  /** The first attempt is lost, which uses up the task's one attempt. */
  lemma Scene23()
    ensures OnFailed(OneShot(), Scene2(), 1, ExecutorLost) == Scene3()
  {
    var cfg := OneShot();
    var released := Release(cfg, Scene2(), 1);
    assert released.tasks[0].active == {2} && released.leases == map[2 := Duplicate()];
    var counted := CountLoss(cfg, released, 1, 0);
    assert counted.executors == Scene3().executors && counted.tasks == released.tasks;
    assert AttemptLost(cfg, counted, 0, 0).tasks[0].avoid == {0};
    assert AttemptLost(cfg, counted, 0, 0).tasks == Scene3().tasks;
  }

  /** The duplicate is refused, which puts the task back in the queue. */
  lemma Scene34()
    ensures OnRejected(OneShot(), Scene3(), 2, 0) == Scene4()
  {
    var cfg := OneShot();
    var released := Release(cfg, Scene3(), 2);
    assert released.tasks[0].active == {} && released.leases == map[];
    var declined := Decline(cfg, released, 1, 0);
    assert declined.executors == Scene4().executors;
    assert Requeue(declined, 0).tasks == Scene4().tasks;
  }

  function Story(): Run {
    Run([Grant(0, 0, false, 0), Grant(0, 1, true, 0), AttemptFailed(1, ExecutorLost), Rejected(2, 0)],
        [Scene0(), Scene1(), Scene2(), Scene3(), Scene4()])
  }

  lemma Step0()
    ensures StepAt(OneShot(), Story(), 0)
  {
    Scene01();
  }

  lemma Step1()
    ensures StepAt(OneShot(), Story(), 1)
  {
    Scene12();
  }

  lemma Step2()
    ensures StepAt(OneShot(), Story(), 2)
  {
    Scene23();
  }

  lemma Step3()
    ensures StepAt(OneShot(), Story(), 3)
  {
    Scene34();
  }

  lemma StoryIsOver(i: nat)
    requires i >= 4
    ensures StepAt(OneShot(), Story(), i)
  {
  }

  ghost predicate Steps(cfg: Config, run: Run)
    requires |run.states| == |run.events| + 1
  {
    forall i :: StepAt(cfg, run, i)
  }

  lemma StorySteps()
    ensures Steps(OneShot(), Story())
  {
    var cfg, run := OneShot(), Story();
    Step0();
    Step1();
    Step2();
    Step3();
    forall i: nat ensures StepAt(cfg, run, i) {
      if i >= 4 { StoryIsOver(i); }
    }
  }

  lemma StoryIsRun()
    ensures IsRun(OneShot(), Story())
  {
    OneShotIsValid();
    StoryStarts();
    StorySteps();
  }

  /** With speculative duplicates on, a task can be ready for yet another attempt though it has failed
      `maxAttempts` times and nothing of it is running: refusing the duplicate put it back in the queue. */
  lemma DuplicatesEscapeTheLimit() returns (cfg: Config, run: Run, t: nat)
    ensures IsRun(cfg, run) && cfg.speculativeDuplicates && t < cfg.Tasks() && t < |Last(run).tasks|
    ensures Last(run).failure.None? && Last(run).tasks[t].phase == Ready && Last(run).tasks[t].active == {}
    ensures Last(run).tasks[t].failedAttempts >= cfg.maxAttempts[t]
  {
    cfg, run, t := OneShot(), Story(), 0;
    StoryIsRun();
  }
}
