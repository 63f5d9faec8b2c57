/** The data a scheduler run works on (scheduler_run.hpp, build_outcome.hpp). */
module SchedulerState {
  import opened Basics
  import opened ResultVerification
  import opened TaskGraphs

  /** What stays fixed during a run: policy, graph, and what each executor advertises.
      `maxAttempts`, `leaseLength` and `attemptLimit` are the per-task values the policy's task-type
      overrides resolve to. */
  datatype Config = Config(
    graph: TaskGraph,
    hashing: Hashing,
    executorIds: seq<string>,
    slots: seq<nat>,
    neverQuarantinedForLoss: seq<bool>,
    accepts: set<(nat, nat)>,
    maxAttempts: seq<nat>,
    leaseLength: seq<int>,
    attemptLimit: seq<int>,
    preferDifferentExecutor: bool,
    quarantineAfterLossEvents: nat,
    speculativeDuplicates: bool,
    rejectionBackoff: int)
  {
    function Tasks(): nat { graph.Size() }

    function Executors(): nat { |slots| }

    predicate Accepts(executor: nat, task: nat) { (executor, task) in accepts }

    ghost predicate Valid() {
      && Shaped()
      && graph.Valid()
      && (forall e :: 0 <= e < |slots| ==> slots[e] > 0)
      && (forall t :: 0 <= t < |maxAttempts| ==> maxAttempts[t] > 0)
      && quarantineAfterLossEvents > 0
      && rejectionBackoff > 0
    }

    ghost predicate Shaped() {
      && graph.Shaped()
      && |executorIds| == |slots| == |neverQuarantinedForLoss|
      && |maxAttempts| == |leaseLength| == |attemptLimit| == graph.Size()
    }
  }

  datatype Phase = Waiting | Ready | Leased | Committed

  datatype Task = Task(
    phase: Phase,
    attemptsStarted: nat,
    failedAttempts: nat,
    avoid: set<nat>,
    active: set<nat>,
    committedAttempt: nat,
    committedExecutor: string,
    committedDigest: Digest)

  /** A lease is known by its number, which is also its grant sequence. */
  datatype Lease = Lease(
    task: nat,
    executor: nat,
    attempt: nat,
    length: int,
    grantedAt: int,
    expiresAt: int,
    deadlineAt: int,
    speculative: bool)

  datatype Executor = Executor(
    active: int,
    lossEvents: nat,
    lossHorizon: nat,
    quarantined: bool,
    declinedUntil: int)

  datatype Commitment = Commitment(attempt: nat, executor: string, digest: Digest)

  /** Who committed a task, by its record. */
  function RecordOf(task: Task): Commitment {
    Commitment(task.committedAttempt, task.committedExecutor, task.committedDigest)
  }

  /** The same of a result. */
  function CommitmentOf(c: CommittedResult): Commitment {
    Commitment(c.output.result.attempt, c.executorId, c.output.result.outputDigest)
  }

  datatype FailureKind =
    | RetriesExhausted
    | PermanentTaskFailure
    | DeterminismIncident
    | NoUsableExecutor
    | CommitFailed

  datatype Failure = Failure(kind: FailureKind, task: Option<nat>)

  datatype Incident = Incident(
    task: nat,
    committed: Commitment,
    conflicting: Commitment)

  datatype Stats = Stats(
    committed: nat,
    resumed: nat,
    attemptsStarted: nat,
    speculativeAttempts: nat,
    retries: nat,
    leasesExpired: nat,
    deadlinesExceeded: nat,
    invalidResults: nat,
    leasesRejected: nat,
    duplicatesDiscarded: nat,
    quarantined: seq<nat>)

  /** `ready` and `done` are the contents of the ready queue and of the ready set; `sink` is what the
      commit sink holds from this run. */
  datatype State = State(
    tasks: seq<Task>,
    executors: seq<Executor>,
    leases: map<nat, Lease>,
    ready: set<nat>,
    done: set<nat>,
    nextLease: nat,
    sink: map<nat, CommittedResult>,
    failure: Option<Failure>,
    incidents: seq<Incident>,
    stats: Stats)

  /** Every index stored in the state is in range, so that each step is well defined. */
  ghost predicate Shaped(cfg: Config, s: State) {
    && cfg.Shaped()
    && |s.tasks| == cfg.Tasks()
    && |s.executors| == cfg.Executors()
    && forall l :: l in s.leases ==> s.leases[l].task < cfg.Tasks() && s.leases[l].executor < cfg.Executors()
  }

  function LeasesOn(leases: map<nat, Lease>, executor: nat): set<nat> {
    set l | l in leases && leases[l].executor == executor
  }

  function FreshTask(): Task {
    Task(Waiting, 0, 0, {}, {}, 0, "", [])
  }

  function FreshExecutor(): Executor {
    Executor(0, 0, 0, false, 0)
  }

  const NO_STATS := Stats(0, 0, 0, 0, 0, 0, 0, 0, 0, 0, [])

  /** What one attempt reported, or what the clock did to it. */
  datatype AttemptFailureKind = InvalidResult | ExecutorLost

  datatype Event =
    | Grant(task: nat, executor: nat, speculative: bool, now: int)
    | Heartbeat(lease: nat, now: int)
    | Finished(lease: nat, output: AttemptOutput, sinkThrows: bool)
    | AttemptFailed(lease: nat, kind: AttemptFailureKind)
    | Rejected(lease: nat, now: int)
    | LeaseEnded(lease: nat, now: int)
}
