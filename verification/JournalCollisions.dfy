/** That the journal's safety asks nothing of a hash but not to collide on what is committed, and needs that. */
module JournalCollisions {
  import opened Basics
  import opened JournalState
  import opened JournalCommits
  import opened JournalResumes
  import opened JournalRuns

  function LastDisk(life: Life): Disk
    requires life.disks != []
  {
    life.disks[|life.disks| - 1]
  }

  /** One more operation, without a crash. */
  function Grown(h: Hash, life: Life, op: Operation): Life
    requires life.disks != []
  {
    var d := LastDisk(life);
    Life(life.disks + [DoAll(d, EffectsOf(h, d, op))], life.ops + [op], life.cuts + [|EffectsOf(h, d, op)|])
  }

  lemma GrownIsLife(h: Hash, life: Life, op: Operation)
    requires IsLife(h, life) && !op.Resume?
    ensures IsLife(h, Grown(h, life, op))
    ensures AllBytes(Grown(h, life, op).ops) == AllBytes(life.ops) + BytesIn(op)
  {
    hide EffectsOf, DoAll;
    var longer, n := Grown(h, life, op), |life.ops|;
    forall i: nat ensures StepAt(h, longer, i) {
      if i < n {
        assert StepAt(h, life, i);
      } else if i == n {
        var es := EffectsOf(h, LastDisk(life), op);
        assert es[..|es|] == es;
      }
    }
    assert longer.ops[..n] == life.ops;
  }

  function InState(d: Disk, task: string, state: TaskState): Disk {
    d.(db := d.db.(tasks := d.db.tasks[task := TaskRow(Some(state), None, {})]))
  }

  lemma Recorded(h: Hash, d: Disk, task: string)
    requires IsIdentifier(task) && task !in d.db.tasks
    ensures DoAll(d, EffectsOf(h, d, Record(task, []))) == InState(d, task, Planned)
  {
    hide IsIdentifier;
    var none: set<string> := set x | x in [];
    assert none == {};
    assert DoAll(d, []) == d;
  }

  lemma StateSet(h: Hash, d: Disk, task: string, from: TaskState, next: TaskState)
    requires next != Committed && TransitionAllowed(from, next)
    ensures var s := InState(d, task, from);
            DoAll(s, EffectsOf(h, s, SetState(task, next))) == InState(d, task, next)
  {
    var s := InState(d, task, from);
    assert DoAll(s, []) == s;
    assert s.db.tasks[task := TaskRow(Some(next), None, {})] == d.db.tasks[task := TaskRow(Some(next), None, {})];
  }

  /** A new task that has its result. */
  lemma ReceiveResult(h: Hash, life: Life, task: string) returns (longer: Life)
    requires IsLife(h, life) && IsIdentifier(task) && task !in LastDisk(life).db.tasks
    ensures IsLife(h, longer) && longer.disks != [] && AllBytes(longer.ops) == AllBytes(life.ops)
    ensures LastDisk(longer) == InState(LastDisk(life), task, ResultReceived)
  {
    var d, ready := LastDisk(life), TaskState.Ready;
    Recorded(h, d, task);
    StateSet(h, d, task, Planned, ready);
    StateSet(h, d, task, ready, ResultReceived);
    hide IsIdentifier, EffectsOf, DoAll, InState, AllBytes;
    GrownIsLife(h, life, Record(task, []));
    longer := Grown(h, life, Record(task, []));
    GrownIsLife(h, longer, SetState(task, ready));
    longer := Grown(h, longer, SetState(task, ready));
    GrownIsLife(h, longer, SetState(task, ResultReceived));
    longer := Grown(h, longer, SetState(task, ResultReceived));
  }

  function Blob(h: Hash, id: string, bytes: seq<byte>): Artifact {
    Artifact(id, h(bytes), bytes)
  }

  function CommitOf(h: Hash, task: string, id: string, bytes: seq<byte>): TaskCommit {
    TaskCommit(task, h(bytes), [Blob(h, id, bytes)])
  }

  /** The effects of a commit of one artifact. */
  lemma OneArtifactEffects(h: Hash, d: Disk, task: string, id: string, bytes: seq<byte>)
    requires IsIdentifier(id) && id !in d.db.artifacts
    requires task in d.db.tasks && d.db.tasks[task].status == Some(ResultReceived)
    ensures var commit, a := CommitOf(h, task, id, bytes), Blob(h, id, bytes);
            CommitEffects(h, d, commit, 0) ==
            [WritePending(0, bytes), PublishOne(h, d.completed, a, 0), Transact(CommittedDb(d.db, commit))]
  {
    var commit, a := CommitOf(h, task, id, bytes), Blob(h, id, bytes);
    assert Matches(h, a) && commit.artifacts[..0] == [];
    assert FirstMismatch(h, commit.artifacts) == 1;
    assert Writes(commit.artifacts, 0) == [WritePending(0, bytes)];
    PublishNothing(h, d.completed, 0);
    PublishSnoc(h, d.completed, commit.artifacts, 0, 0);
    assert commit.artifacts[..1] == commit.artifacts;
  }

  lemma ThreeEffects(d: Disk, a: Effect, b: Effect, c: Effect)
    ensures DoAll(d, [a, b, c]) == Do(Do(Do(d, a), b), c)
  {
    assert [a, b, c][..2] == [a, b] && [a, b][..1] == [a] && [a][..0] == [];
    assert DoAll(d, [a]) == Do(d, a);
    assert DoAll(d, [a, b]) == Do(Do(d, a), b);
  }

  lemma OneArtifactDisk(h: Hash, d: Disk, task: string, id: string, bytes: seq<byte>)
    requires IsIdentifier(id) && id !in d.db.artifacts
    requires task in d.db.tasks && d.db.tasks[task].status == Some(ResultReceived)
    ensures var commit, a := CommitOf(h, task, id, bytes), Blob(h, id, bytes);
            var r := DoAll(d, CommitEffects(h, d, commit, 0));
            r.completed == WithBlob(h, d.completed, a) && r.db == CommittedDb(d.db, commit)
  {
    var commit, a := CommitOf(h, task, id, bytes), Blob(h, id, bytes);
    OneArtifactEffects(h, d, task, id, bytes);
    hide CommitEffects, DoAll, CommittedDb;
    ThreeEffects(d, WritePending(0, bytes), PublishOne(h, d.completed, a, 0), Transact(CommittedDb(d.db, commit)));
  }

  /** What a life gains by committing `bytes` as the one artifact `id` of a new task. */
  ghost predicate Commits(h: Hash, before: Disk, after: Disk, task: string, id: string, bytes: seq<byte>) {
    && after.completed == WithBlob(h, before.completed, Blob(h, id, bytes))
    && after.db.artifacts == before.db.artifacts[id := RowOf(task, Blob(h, id, bytes))]
    && after.db.tasks.Keys == before.db.tasks.Keys + {task} && CommittedIn(after.db, task)
  }

  lemma CommitNewTask(h: Hash, life: Life, task: string, id: string, bytes: seq<byte>) returns (longer: Life)
    requires IsLife(h, life) && IsIdentifier(task) && IsIdentifier(id)
    requires task !in LastDisk(life).db.tasks && id !in LastDisk(life).db.artifacts
    ensures IsLife(h, longer) && longer.disks != [] && AllBytes(longer.ops) == AllBytes(life.ops) + {bytes}
    ensures Commits(h, LastDisk(life), LastDisk(longer), task, id, bytes)
  {
    hide IsLife, IsIdentifier, WithBlob;
    var received := ReceiveResult(h, life, task);
    var d, commit := LastDisk(received), CommitOf(h, task, id, bytes);
    GrownIsLife(h, received, Commit(commit, 0));
    longer := Grown(h, received, Commit(commit, 0));
    OneArtifactDisk(h, d, task, id, bytes);
    assert BytesIn(Commit(commit, 0)) == {bytes} by { OneBlob(h, id, bytes); }
    OneRow(h, d.db, commit, id, bytes);
  }

  lemma OneBlob(h: Hash, id: string, bytes: seq<byte>)
    ensures BytesOf([Blob(h, id, bytes)]) == {bytes}
  {
    assert Blob(h, id, bytes) in [Blob(h, id, bytes)];
  }

  lemma OneRow(h: Hash, db: Database, commit: TaskCommit, id: string, bytes: seq<byte>)
    requires commit.taskId in db.tasks && commit.artifacts == [Blob(h, id, bytes)]
    ensures CommittedDb(db, commit).artifacts == db.artifacts[id := RowOf(commit.taskId, Blob(h, id, bytes))]
  {
    assert commit.artifacts[..0] == [];
    assert WithRows(db.artifacts, commit.taskId, commit.artifacts[..0]) == db.artifacts;
  }

  lemma EmptyLife(h: Hash)
    ensures IsLife(h, Life([EMPTY_DISK], [], []))
  {
  }

  /** Whatever the hash, any bytes can be committed in a life to which the theorems about safety apply. */
  lemma SomethingCanBeCommitted(h: Hash, bytes: seq<byte>) returns (life: Life)
    ensures IsLife(h, life) && NoCollision(h, AllBytes(life.ops)) && bytes in AllBytes(life.ops)
    ensures CommittedIn(LastDisk(life).db, "a") && "x" in LastDisk(life).db.artifacts
    ensures LastDisk(life).db.artifacts["x"] == RowOf("a", Blob(h, "x", bytes)) && Safe(h, LastDisk(life))
  {
    EmptyLife(h);
    life := CommitNewTask(h, Life([EMPTY_DISK], [], []), "a", "x", bytes);
    AlwaysSafe(h, life, |life.ops|);
  }

  /** And safety needs what they ask: contents of different length that share a digest can be committed so that
      a row no longer names a blob of its length. */
  lemma CollisionsBreakSafety(h: Hash, x: seq<byte>, y: seq<byte>) returns (life: Life)
    requires h(x) == h(y) && |x| != |y|
    ensures IsLife(h, life) && AllBytes(life.ops) == {x, y} && !Safe(h, LastDisk(life))
  {
    EmptyLife(h);
    var first := CommitNewTask(h, Life([EMPTY_DISK], [], []), "a", "x", x);
    life := CommitNewTask(h, first, "b", "y", y);
    var d := LastDisk(life);
    assert d.db.artifacts["x"] == RowOf("a", Blob(h, "x", x));
    assert d.completed[h(x)] == Regular(y);
    assert !RowSafe(h, d.completed, d.db, "x");
  }
}
