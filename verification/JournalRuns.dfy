/**
 Whole lives of a journal: any operations in any order, a crash allowed between any two effects of any of
 them, including of a resume.
 */
module JournalRuns {
  import opened Basics
  import opened JournalState
  import opened JournalCommits
  import opened JournalResumes
  import opened JournalVerification
  import opened RecoveryJournals

  datatype Operation =
    | Record(taskId: string, dependsOn: seq<string>)
    | SetState(taskId: string, next: TaskState)
    | Commit(commit: TaskCommit, first: nat)
    | Resume(demoted: set<string>, pendingOrder: seq<nat>, fileOrder: seq<string>)

  /** What `RecoveryJournal.Resume` promises of the choices it makes. */
  ghost predicate Possible(h: Hash, d: Disk, op: Operation) {
    op.Resume? ==>
      && op.demoted == Failing(h, d.completed, d.db) && Walks(d, op.demoted, op.pendingOrder, op.fileOrder)
  }

  function EffectsOf(h: Hash, d: Disk, op: Operation): seq<Effect> {
    match op
    case Record(taskId, dependsOn) => RecordEffects(d.db, taskId, dependsOn)
    case SetState(taskId, next) => SetStateEffects(d.db, taskId, next)
    case Commit(commit, first) => CommitEffects(h, d, commit, first)
    case Resume(demoted, pendingOrder, fileOrder) => ResumeEffects(d.db, demoted, pendingOrder, fileOrder)
  }

  /** Operation `i` has its first `cuts[i]` effects: all of them, unless a crash came first. */
  datatype Life = Life(disks: seq<Disk>, ops: seq<Operation>, cuts: seq<nat>)

  ghost predicate StepAt(h: Hash, life: Life, i: nat)
    requires |life.disks| == |life.ops| + 1 && |life.cuts| == |life.ops|
  {
    i < |life.ops| ==>
      && Possible(h, life.disks[i], life.ops[i])
      && life.cuts[i] <= |EffectsOf(h, life.disks[i], life.ops[i])|
      && life.disks[i + 1] == DoAll(life.disks[i], EffectsOf(h, life.disks[i], life.ops[i])[..life.cuts[i]])
  }

  const EMPTY_DISK := Disk(map[], map[], Database(map[], map[]))

  ghost predicate IsLife(h: Hash, life: Life) {
    && |life.disks| == |life.ops| + 1 && |life.cuts| == |life.ops|
    && life.disks[0] == EMPTY_DISK
    && forall i :: StepAt(h, life, i)
  }

  // ---- Safety ----

  lemma RecordIsSafe(h: Hash, d: Disk, taskId: string, dependsOn: seq<string>)
    requires Safe(h, d)
    ensures SafeThroughout(h, d, RecordEffects(d.db, taskId, dependsOn))
  {
    SafeNothing(h, d);
    if RecordError(d.db, taskId, dependsOn).None? {
      var db := d.db.(tasks := d.db.tasks[taskId := TaskRow(Some(Planned), None, set x | x in dependsOn)]);
      forall id ensures RowSafe(h, d.completed, db, id) { assert RowSafe(h, d.completed, d.db, id); }
      forall t ensures TaskSafe(db, t) { assert TaskSafe(d.db, t); }
      SafeSnoc(h, d, [], Transact(db));
      assert [] + [Transact(db)] == RecordEffects(d.db, taskId, dependsOn);
    }
  }

  lemma SetStateIsSafe(h: Hash, d: Disk, taskId: string, next: TaskState)
    requires Safe(h, d)
    ensures SafeThroughout(h, d, SetStateEffects(d.db, taskId, next))
  {
    SafeNothing(h, d);
    if SetStateError(d.db, taskId, next).None? {
      var db := d.db.(tasks := d.db.tasks[taskId := d.db.tasks[taskId].(status := Some(next))]);
      forall id ensures RowSafe(h, d.completed, db, id) { assert RowSafe(h, d.completed, d.db, id); }
      forall t ensures TaskSafe(db, t) { assert TaskSafe(d.db, t); }
      SafeSnoc(h, d, [], Transact(db));
      assert [] + [Transact(db)] == SetStateEffects(d.db, taskId, next);
    }
  }

  lemma OperationIsCrashSafe(h: Hash, d: Disk, op: Operation)
    requires Safe(h, d) && Possible(h, d, op) && NoCollision(h, ContentsOf(d.completed) + BytesIn(op))
    ensures SafeThroughout(h, d, EffectsOf(h, d, op))
  {
    hide Safe, SafeThroughout, CommitEffects, ResumeEffects, RecordEffects, SetStateEffects, NoCollision;
    match op
    case Record(taskId, dependsOn) => RecordIsSafe(h, d, taskId, dependsOn);
    case SetState(taskId, next) => SetStateIsSafe(h, d, taskId, next);
    case Commit(commit, first) => CommitIsCrashSafe(h, d, commit, first);
    case Resume(demoted, pendingOrder, fileOrder) => ResumeIsCrashSafe(h, d, demoted, pendingOrder, fileOrder);
  }

  // ---- Where bytes come from ----

  function BytesIn(op: Operation): set<seq<byte>> {
    if op.Commit? then BytesOf(op.commit.artifacts) else {}
  }

  /** Every content a life was asked to commit. */
  function AllBytes(ops: seq<Operation>): set<seq<byte>> {
    if ops == [] then {} else AllBytes(ops[..|ops| - 1]) + BytesIn(ops[|ops| - 1])
  }

  lemma {:induction false} BytesSoFar(ops: seq<Operation>, i: nat)
    requires i <= |ops|
    ensures AllBytes(ops[..i]) <= AllBytes(ops)
    ensures i < |ops| ==> AllBytes(ops[..i]) + BytesIn(ops[i]) <= AllBytes(ops)
  {
    if i == |ops| {
      assert ops[..i] == ops;
    } else {
      var n := |ops| - 1;
      assert ops[..n][..i] == ops[..i];
      BytesSoFar(ops[..n], i);
    }
  }

  /** Whatever is on the disk is among `bytes`. */
  ghost predicate DrawnFrom(d: Disk, bytes: set<seq<byte>>) {
    && (forall f :: f in d.completed && d.completed[f].Regular? ==> d.completed[f].bytes in bytes)
    && (forall name :: name in d.pending ==> d.pending[name] in bytes)
  }

  /** Effects put on the disk only what they write. */
  lemma {:induction false} EffectsDrawFrom(d: Disk, es: seq<Effect>, bytes: set<seq<byte>>)
    requires DrawnFrom(d, bytes) && forall i :: 0 <= i < |es| && es[i].WritePending? ==> es[i].bytes in bytes
    ensures DrawnFrom(DoAll(d, es), bytes)
  {
    if es != [] { EffectsDrawFrom(d, es[..|es| - 1], bytes); }
  }

  lemma {:induction false} PublishWritesNothing(h: Hash, files: map<string, File>, artifacts: seq<Artifact>, first: nat)
    ensures forall i :: 0 <= i < |PublishEffects(h, files, artifacts, first)| ==> !PublishEffects(h, files, artifacts, first)[i].WritePending?
  {
    if artifacts != [] { PublishWritesNothing(h, files, artifacts[..|artifacts| - 1], first); }
  }

  lemma OperationWrites(h: Hash, d: Disk, op: Operation)
    ensures forall i :: 0 <= i < |EffectsOf(h, d, op)| && EffectsOf(h, d, op)[i].WritePending? ==> EffectsOf(h, d, op)[i].bytes in BytesIn(op)
  {
    if op.Commit? { PublishWritesNothing(h, d.completed, op.commit.artifacts, op.first); }
  }

  lemma {:induction false} LifeDrawsFrom(h: Hash, life: Life, i: nat)
    requires IsLife(h, life) && i < |life.disks|
    ensures DrawnFrom(life.disks[i], AllBytes(life.ops[..i]))
  {
    if i > 0 {
      var d, op := life.disks[i - 1], life.ops[i - 1];
      LifeDrawsFrom(h, life, i - 1);
      assert StepAt(h, life, i - 1);
      assert life.ops[..i][..i - 1] == life.ops[..i - 1];
      OperationWrites(h, d, op);
      hide EffectsOf;
      EffectsDrawFrom(d, EffectsOf(h, d, op)[..life.cuts[i - 1]], AllBytes(life.ops[..i]));
    }
  }

  lemma ContentsDrawn(d: Disk, bytes: set<seq<byte>>)
    requires DrawnFrom(d, bytes)
    ensures ContentsOf(d.completed) <= bytes
  {
  }

  /** At every point of every life among whose committed contents no two of different length share a digest,
      every artifact row names a completed blob of its digest and length and belongs to a committed task, which
      has its output digest. */
  lemma {:induction false} AlwaysSafe(h: Hash, life: Life, i: nat)
    requires IsLife(h, life) && NoCollision(h, AllBytes(life.ops)) && i < |life.disks|
    ensures Safe(h, life.disks[i])
  {
    if i > 0 {
      var d, op := life.disks[i - 1], life.ops[i - 1];
      AlwaysSafe(h, life, i - 1);
      LifeDrawsFrom(h, life, i - 1);
      ContentsDrawn(d, AllBytes(life.ops[..i - 1]));
      BytesSoFar(life.ops, i - 1);
      FewerDoNotCollide(h, ContentsOf(d.completed) + BytesIn(op), AllBytes(life.ops));
      assert StepAt(h, life, i - 1);
      hide NoCollision, ContentsOf, AllBytes, BytesIn, EffectsOf;
      OperationIsCrashSafe(h, d, op);
    }
  }

  /** So a resume never demotes anything unless something else touched the disk: committed work survives. */
  lemma ResumeLosesNothing(h: Hash, life: Life, i: nat)
    requires IsLife(h, life) && NoCollision(h, AllBytes(life.ops)) && i < |life.ops| && life.ops[i].Resume?
    ensures life.ops[i].demoted == {}
  {
    AlwaysSafe(h, life, i);
    assert StepAt(h, life, i);
    var d := life.disks[i];
    SafeRowsAgree(h, d);
    ReportIsRight(h, d.completed, d.db);
    forall t ensures t !in life.ops[i].demoted {
      if t in CommittedTasks(d.db) { SafeKeepsEverything(h, d, t); }
    }
  }

  // ---- Committed together with all rows ----

  /** Task `t` is committed by `commit`: its output, and a row for every artifact. */
  ghost predicate HeldBy(db: Database, t: string, commit: TaskCommit) {
    && CommittedIn(db, t) && db.tasks[t].output == Some(commit.output)
    && forall i :: 0 <= i < |commit.artifacts| ==>
         commit.artifacts[i].id in db.artifacts && db.artifacts[commit.artifacts[i].id] == RowOf(t, commit.artifacts[i])
  }

  /** The commitment of `t` and its rows are as they were. */
  ghost predicate SameCommit(before: Database, after: Database, t: string) {
    && CommittedIn(before, t) && t in after.tasks && after.tasks[t] == before.tasks[t]
    && forall id :: id in before.artifacts && before.artifacts[id].taskId == t ==>
                      id in after.artifacts && after.artifacts[id] == before.artifacts[id]
  }

  /** Every transaction among the effects stores `db`. */
  predicate OnlyStores(es: seq<Effect>, db: Database) {
    forall i :: 0 <= i < |es| ==> es[i].Transact? ==> es[i].db == db
  }

  lemma {:induction false} StoredOrNot(d: Disk, es: seq<Effect>, db: Database, k: nat)
    requires OnlyStores(es, db) && k <= |es|
    ensures DoAll(d, es[..k]).db in {d.db, db}
  {
    if k > 0 {
      StoredOrNot(d, es, db, k - 1);
      assert es[..k] == es[..k - 1] + [es[k - 1]];
      DoSnoc(d, es[..k - 1], es[k - 1]);
    }
  }

  /** The tables an operation stores, if it stores any. */
  function Stored(h: Hash, d: Disk, op: Operation): Database {
    match op
    case Record(taskId, dependsOn) =>
      if RecordError(d.db, taskId, dependsOn).Some? then d.db
      else d.db.(tasks := d.db.tasks[taskId := TaskRow(Some(Planned), None, set x | x in dependsOn)])
    case SetState(taskId, next) =>
      if SetStateError(d.db, taskId, next).Some? then d.db
      else d.db.(tasks := d.db.tasks[taskId := d.db.tasks[taskId].(status := Some(next))])
    case Commit(commit, first) => if CommitError(h, d.db, commit).Some? then d.db else CommittedDb(d.db, commit)
    case Resume(demoted, _, _) => ResumedDb(d.db, demoted)
  }

  lemma {:induction false} PublishStoresNothing(h: Hash, files: map<string, File>, artifacts: seq<Artifact>, first: nat)
    ensures forall i :: 0 <= i < |PublishEffects(h, files, artifacts, first)| ==> !PublishEffects(h, files, artifacts, first)[i].Transact?
  {
    if artifacts != [] { PublishStoresNothing(h, files, artifacts[..|artifacts| - 1], first); }
  }

  lemma OperationStores(h: Hash, d: Disk, op: Operation)
    ensures OnlyStores(EffectsOf(h, d, op), Stored(h, d, op))
  {
    if op.Commit? { PublishStoresNothing(h, d.completed, op.commit.artifacts, op.first); }
  }

  lemma StoredCommit(h: Hash, d: Disk, commit: TaskCommit, t: string)
    requires CommitError(h, d.db, commit).None? && CommittedIn(CommittedDb(d.db, commit), t)
    ensures t == commit.taskId ==> HeldBy(CommittedDb(d.db, commit), t, commit)
    ensures t != commit.taskId ==> SameCommit(d.db, CommittedDb(d.db, commit), t)
  {
    var db := CommittedDb(d.db, commit);
    forall id ensures id in d.db.artifacts ==> id in db.artifacts && db.artifacts[id] == d.db.artifacts[id] {
      WithRowsHas(d.db.artifacts, commit.taskId, commit.artifacts, id);
    }
    forall i | 0 <= i < |commit.artifacts|
      ensures commit.artifacts[i].id in db.artifacts
              && db.artifacts[commit.artifacts[i].id] == RowOf(commit.taskId, commit.artifacts[i])
    {
      WithRowsHas(d.db.artifacts, commit.taskId, commit.artifacts, commit.artifacts[i].id);
    }
  }

  /** What is committed after an operation, however far it got, was committed before or by it. */
  lemma CommittedBefore(h: Hash, d: Disk, op: Operation, k: nat, t: string)
    requires k <= |EffectsOf(h, d, op)| && CommittedIn(DoAll(d, EffectsOf(h, d, op)[..k]).db, t)
    ensures var db := DoAll(d, EffectsOf(h, d, op)[..k]).db;
            SameCommit(d.db, db, t) || (op.Commit? && op.commit.taskId == t && HeldBy(db, t, op.commit))
  {
    hide EffectsOf, DoAll, CommittedDb, HeldBy;
    OperationStores(h, d, op);
    StoredOrNot(d, EffectsOf(h, d, op), Stored(h, d, op), k);
    if op.Commit? && CommitError(h, d.db, op.commit).None? && CommittedIn(CommittedDb(d.db, op.commit), t) {
      StoredCommit(h, d, op.commit, t);
    }
  }

  ghost predicate CommittedByStep(life: Life, j: nat, t: string, db: Database) {
    j < |life.ops| && life.ops[j].Commit? && life.ops[j].commit.taskId == t && HeldBy(db, t, life.ops[j].commit)
  }

  lemma SameCommitStaysHeld(before: Database, after: Database, t: string, commit: TaskCommit)
    requires SameCommit(before, after, t) && HeldBy(before, t, commit)
    ensures HeldBy(after, t, commit)
  {
    forall i | 0 <= i < |commit.artifacts|
      ensures commit.artifacts[i].id in after.artifacts && after.artifacts[commit.artifacts[i].id] == RowOf(t, commit.artifacts[i])
    {
      assert before.artifacts[commit.artifacts[i].id].taskId == t;
    }
  }

  /** At every point of every life, a committed task stands as some commit of it made it: with that commit's
      output digest and a row for every one of its artifacts. */
  lemma {:induction false} CommittedWithAllRows(h: Hash, life: Life, i: nat, t: string) returns (j: nat)
    requires IsLife(h, life) && i < |life.disks| && CommittedIn(life.disks[i].db, t)
    ensures j < i && CommittedByStep(life, j, t, life.disks[i].db)
  {
    assert i > 0;
    var p := i - 1;
    assert StepAt(h, life, p);
    CommittedBefore(h, life.disks[p], life.ops[p], life.cuts[p], t);
    if SameCommit(life.disks[p].db, life.disks[i].db, t) {
      j := CommittedWithAllRows(h, life, p, t);
      SameCommitStaysHeld(life.disks[p].db, life.disks[i].db, t, life.ops[j].commit);
    } else {
      j := p;
    }
  }
}
