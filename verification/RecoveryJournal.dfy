/** The recovery journal: task lifecycle, commit and resume, as an object that changes its disk in place. */
module RecoveryJournals {
  import opened Basics
  import opened JournalState
  import opened JournalCommits
  import opened JournalOutcomes
  import opened JournalResumes
  import opened JournalVerification
  import opened Sorting

  datatype Fingerprint = Fingerprint(sizeBytes: nat, blake3: Hex)

  datatype Source = Source(sourceId: string, fingerprint: Fingerprint)

  ghost predicate SourcesMatch(recorded: map<string, Fingerprint>, current: seq<Source>) {
    && (forall i :: 0 <= i < |current| ==> current[i].sourceId in recorded && recorded[current[i].sourceId] == current[i].fingerprint)
    && (forall id :: id in recorded ==> exists i :: 0 <= i < |current| && current[i].sourceId == id)
  }

  // ---- The smaller operations ----

  /** Recording a task inserts it as planned; nothing changes when it exists or an identifier is malformed. */
  function RecordEffects(db: Database, taskId: string, dependsOn: seq<string>): seq<Effect> {
    if RecordError(db, taskId, dependsOn).Some? then []
    else [Transact(db.(tasks := db.tasks[taskId := TaskRow(Some(Planned), None, set d | d in dependsOn)]))]
  }

  function RecordError(db: Database, taskId: string, dependsOn: seq<string>): Option<JournalError> {
    if !IsIdentifier(taskId) || exists d :: d in dependsOn && !IsIdentifier(d) then Some(InvalidArgument)
    else if taskId in db.tasks || |set d | d in dependsOn| != |dependsOn| then Some(DuplicateRecord)
    else None
  }

  function SetStateError(db: Database, taskId: string, next: TaskState): Option<JournalError> {
    if taskId !in db.tasks then Some(UnknownTask)
    else if db.tasks[taskId].status.None? then Some(UnknownStatus)
    else if next == Committed || !TransitionAllowed(db.tasks[taskId].status.value, next) then Some(InvalidTransition)
    else None
  }

  function SetStateEffects(db: Database, taskId: string, next: TaskState): seq<Effect> {
    if SetStateError(db, taskId, next).Some? then []
    else [Transact(db.(tasks := db.tasks[taskId := db.tasks[taskId].(status := Some(next))]))]
  }

  function CommitError(h: Hash, db: Database, commit: TaskCommit): Option<JournalError> {
    if !WellFormed(commit) then Some(InvalidArgument)
    else if commit.taskId !in db.tasks then Some(UnknownTask)
    else if db.tasks[commit.taskId].status.None? then Some(UnknownStatus)
    else if db.tasks[commit.taskId].status != Some(ResultReceived) then Some(InvalidTransition)
    else if FirstMismatch(h, commit.artifacts) < |commit.artifacts| then Some(ArtifactMismatch)
    else if !RowsAreNew(db, commit.artifacts) then Some(DuplicateRecord)
    else None
  }

  // ---- When they succeed ----

  /** A letter, a digit, a dot, an underscore or a dash, by its ASCII code. */
  predicate IsNameCode(code: int) {
    48 <= code <= 57 || 65 <= code <= 90 || 97 <= code <= 122 || code == 45 || code == 46 || code == 95
  }

  ghost predicate Named(s: string) {
    |s| > 0 && forall i :: 0 <= i < |s| ==> IsNameCode(s[i] as int)
  }

  lemma IdentifierMeans(s: string)
    ensures IsIdentifier(s) <==> Named(s)
  {
  }

  lemma {:induction false} RepeatsShow(names: seq<string>)
    ensures |set d | d in names| <= |names|
    ensures |set d | d in names| == |names| <==> forall i, j :: 0 <= i < j < |names| ==> names[i] != names[j]
  {
    if names != [] {
      var n := |names| - 1;
      RepeatsShow(names[..n]);
      var before := set d | d in names[..n];
      assert (set d | d in names) == before + {names[n]};
      if names[n] in before {
        var i :| 0 <= i < n && names[i] == names[n];
        assert before + {names[n]} == before;
      }
    }
  }

  /** A task is recorded exactly if its id and those it depends on are names, it is new, and no dependency is repeated. */
  lemma RecordMeans(d: Disk, taskId: string, dependsOn: seq<string>)
    ensures var error := RecordError(d.db, taskId, dependsOn);
            var named := Named(taskId) && forall i :: 0 <= i < |dependsOn| ==> Named(dependsOn[i]);
            var repeated := exists i, j :: 0 <= i < j < |dependsOn| && dependsOn[i] == dependsOn[j];
            && (error == Some(InvalidArgument) <==> !named)
            && (error == Some(DuplicateRecord) <==> named && (taskId in d.db.tasks || repeated))
            && (error.None? <==> named && taskId !in d.db.tasks && !repeated)
            && DoAll(d, RecordEffects(d.db, taskId, dependsOn)) ==
               if error.Some? then d
               else d.(db := d.db.(tasks := d.db.tasks[taskId := TaskRow(Some(Planned), None, set x | x in dependsOn)]))
  {
    IdentifierMeans(taskId);
    forall i | 0 <= i < |dependsOn| ensures IsIdentifier(dependsOn[i]) <==> Named(dependsOn[i]) { IdentifierMeans(dependsOn[i]); }
    RepeatsShow(dependsOn);
    hide IsIdentifier, Named;
    var db := d.db.(tasks := d.db.tasks[taskId := TaskRow(Some(Planned), None, set x | x in dependsOn)]);
    NothingDone(d);
    DoSnoc(d, [], Transact(db));
    assert [] + [Transact(db)] == [Transact(db)];
  }

  /** The edges of a task's life that an operation other than a commit may take. */
  const EDGES: set<(TaskState, TaskState)> := {
    (Planned, TaskState.Ready), (TaskState.Ready, Leased), (TaskState.Ready, Running), (TaskState.Ready, ResultReceived),
    (Leased, Running), (Leased, TaskState.Ready), (Leased, FailedRetryable),
    (Running, ResultReceived), (Running, TaskState.Ready), (Running, FailedRetryable), (Running, FailedPermanent),
    (ResultReceived, FailedRetryable), (ResultReceived, FailedPermanent),
    (FailedRetryable, TaskState.Ready), (FailedRetryable, FailedPermanent)
  }

  /** A state is set exactly if the task is known, in a known state, and the edge to the new one is among these. */
  lemma SetStateMeans(d: Disk, taskId: string, next: TaskState)
    ensures var error, known := SetStateError(d.db, taskId, next), taskId in d.db.tasks;
            && (error == Some(UnknownTask) <==> !known)
            && (error == Some(UnknownStatus) <==> known && d.db.tasks[taskId].status.None?)
            && (error == Some(InvalidTransition) <==>
                  known && d.db.tasks[taskId].status.Some? && (d.db.tasks[taskId].status.value, next) !in EDGES)
            && (error.None? <==> known && d.db.tasks[taskId].status.Some? && (d.db.tasks[taskId].status.value, next) in EDGES)
            && DoAll(d, SetStateEffects(d.db, taskId, next)) ==
               if error.Some? then d
               else d.(db := d.db.(tasks := d.db.tasks[taskId := d.db.tasks[taskId].(status := Some(next))]))
  {
    NothingDone(d);
    if SetStateError(d.db, taskId, next).None? {
      var db := d.db.(tasks := d.db.tasks[taskId := d.db.tasks[taskId].(status := Some(next))]);
      DoSnoc(d, [], Transact(db));
      assert [] + [Transact(db)] == [Transact(db)];
    }
  }

  ghost predicate WellNamed(artifacts: seq<Artifact>) {
    && (forall i :: 0 <= i < |artifacts| ==> Named(artifacts[i].id))
    && forall i, j :: 0 <= i < j < |artifacts| ==> artifacts[i].id != artifacts[j].id
  }

  ghost predicate AllHashRight(h: Hash, artifacts: seq<Artifact>) {
    forall i :: 0 <= i < |artifacts| ==> h(artifacts[i].bytes) == artifacts[i].blake3
  }

  ghost predicate IdInUse(db: Database, artifacts: seq<Artifact>) {
    exists i :: 0 <= i < |artifacts| && artifacts[i].id in db.artifacts
  }

  /** A commit is accepted exactly if the task has its result, its artifacts have names that differ and are not in use,
      and each hashes to its digest; otherwise the first thing wrong is reported. */
  lemma CommitMeans(h: Hash, db: Database, commit: TaskCommit)
    ensures var error, artifacts, known := CommitError(h, db, commit), commit.artifacts, commit.taskId in db.tasks;
            var received := known && db.tasks[commit.taskId].status == Some(ResultReceived);
            && (error.None? <==> Accepted(h, db, commit))
            && (error == Some(InvalidArgument) <==> !WellNamed(artifacts))
            && (error == Some(UnknownTask) <==> WellNamed(artifacts) && !known)
            && (error == Some(UnknownStatus) <==> WellNamed(artifacts) && known && db.tasks[commit.taskId].status.None?)
            && (error == Some(InvalidTransition) <==>
                  WellNamed(artifacts) && known && db.tasks[commit.taskId].status.Some? && !received)
            && (error == Some(ArtifactMismatch) <==> WellNamed(artifacts) && received && !AllHashRight(h, artifacts))
            && (error == Some(DuplicateRecord) <==>
                  WellNamed(artifacts) && received && AllHashRight(h, artifacts) && IdInUse(db, artifacts))
  {
    AcceptedMeans(h, db, commit);
    forall i | 0 <= i < |commit.artifacts| ensures IsIdentifier(commit.artifacts[i].id) <==> Named(commit.artifacts[i].id) {
      IdentifierMeans(commit.artifacts[i].id);
    }
    hide IsIdentifier, Named, FirstMismatch, Accepted;
    assert WellNamed(commit.artifacts) <==> WellFormed(commit);
    hide WellNamed, WellFormed;
  }

  // ---- Resume ----

  function PendingRemovals(order: seq<nat>): seq<Effect> {
    seq(|order|, i requires 0 <= i < |order| => RemovePending(order[i]))
  }

  function FileRemovals(order: seq<string>): seq<Effect> {
    seq(|order|, i requires 0 <= i < |order| => RemoveCompleted(order[i]))
  }

  /** Discard what is pending, then one transaction, then drop the files no row references. */
  function ResumeEffects(db: Database, demoted: set<string>, pendingOrder: seq<nat>, fileOrder: seq<string>): seq<Effect> {
    PendingRemovals(pendingOrder) + [Transact(ResumedDb(db, demoted))] + FileRemovals(fileOrder)
  }

  /** The directories are walked in some order, each entry once. */
  ghost predicate Walks(d: Disk, demoted: set<string>, pendingOrder: seq<nat>, fileOrder: seq<string>) {
    && Members(pendingOrder) == d.pending.Keys
    && Members(fileOrder) == d.completed.Keys - KeptFiles(d.completed, ResumedDb(d.db, demoted)).Keys
  }

  lemma {:induction false} PendingRemoved(d: Disk, order: seq<nat>)
    ensures DoAll(d, PendingRemovals(order)) == d.(pending := d.pending - Members(order))
  {
    if order == [] {
      assert d.pending - Members(order) == d.pending;
    } else {
      var n := |order| - 1;
      PendingRemoved(d, order[..n]);
      assert PendingRemovals(order) == PendingRemovals(order[..n]) + [RemovePending(order[n])];
      DoSnoc(d, PendingRemovals(order[..n]), RemovePending(order[n]));
      assert order == order[..n] + [order[n]];
      assert Members(order) == Members(order[..n]) + {order[n]};
      assert d.pending - Members(order[..n]) - {order[n]} == d.pending - Members(order);
    }
  }

  lemma {:induction false} FilesRemoved(d: Disk, order: seq<string>)
    ensures DoAll(d, FileRemovals(order)) == d.(completed := d.completed - Members(order))
  {
    if order == [] {
      assert d.completed - Members(order) == d.completed;
    } else {
      var n := |order| - 1;
      FilesRemoved(d, order[..n]);
      assert FileRemovals(order) == FileRemovals(order[..n]) + [RemoveCompleted(order[n])];
      DoSnoc(d, FileRemovals(order[..n]), RemoveCompleted(order[n]));
      assert order == order[..n] + [order[n]];
      assert Members(order) == Members(order[..n]) + {order[n]};
      assert d.completed - Members(order[..n]) - {order[n]} == d.completed - Members(order);
    }
  }

  /** Where an undisturbed resume ends: nothing pending, the resumed tables, exactly the referenced files. */
  lemma ResumeEnds(d: Disk, demoted: set<string>, pendingOrder: seq<nat>, fileOrder: seq<string>)
    requires Walks(d, demoted, pendingOrder, fileOrder)
    ensures var db := ResumedDb(d.db, demoted);
            DoAll(d, ResumeEffects(d.db, demoted, pendingOrder, fileOrder)) == Disk(map[], KeptFiles(d.completed, db), db)
  {
    hide ResumedDb, KeptFiles;
    var db := ResumedDb(d.db, demoted);
    var first := PendingRemovals(pendingOrder);
    PendingRemoved(d, pendingOrder);
    assert d.pending - Members(pendingOrder) == map[];
    DoSnoc(d, first, Transact(db));
    DoConcat(d, first + [Transact(db)], FileRemovals(fileOrder));
    FilesRemoved(Disk(map[], d.completed, db), fileOrder);
    FilesKept(d.completed, db, Members(fileOrder));
  }

  lemma FilesKept(completed: map<string, File>, db: Database, gone: set<string>)
    requires gone == completed.Keys - KeptFiles(completed, db).Keys
    ensures completed - gone == KeptFiles(completed, db)
  {
  }

  lemma ResumedDbIsSafe(h: Hash, d: Disk, demoted: set<string>)
    requires Safe(h, d)
    ensures Safe(h, d.(db := ResumedDb(d.db, demoted)))
  {
    var db := ResumedDb(d.db, demoted);
    forall id ensures RowSafe(h, d.completed, db, id) { assert RowSafe(h, d.completed, d.db, id); }
    forall t ensures TaskSafe(db, t) { assert TaskSafe(d.db, t); }
  }

  lemma {:induction false} RemovalsAreSafe(h: Hash, d: Disk, order: seq<string>)
    requires Safe(h, d) && forall f :: f in order ==> CompletedPath(f) !in Referenced(d.db)
    ensures SafeThroughout(h, d, FileRemovals(order))
  {
    if order == [] {
      SafeNothing(h, d);
    } else {
      var n := |order| - 1;
      RemovalsAreSafe(h, d, order[..n]);
      assert FileRemovals(order) == FileRemovals(order[..n]) + [RemoveCompleted(order[n])];
      FilesRemoved(d, order[..n]);
      UnreferencedIsSafe(h, DoAll(d, FileRemovals(order[..n])), order[n]) by {
        var es := FileRemovals(order[..n]);
        assert es[..|es|] == es;
      }
      SafeSnoc(h, d, FileRemovals(order[..n]), RemoveCompleted(order[n]));
    }
  }

  lemma UnreferencedIsSafe(h: Hash, d: Disk, file: string)
    requires Safe(h, d) && CompletedPath(file) !in Referenced(d.db)
    ensures Safe(h, Do(d, RemoveCompleted(file)))
  {
    var r := Do(d, RemoveCompleted(file));
    forall id ensures RowSafe(h, r.completed, r.db, id) {
      assert RowSafe(h, d.completed, d.db, id);
      if id in d.db.artifacts { PathsDiffer(d.db.artifacts[id].blake3, file); }
    }
  }

  /** Wherever a crash interrupts a resume, every row still names a verified blob. */
  lemma ResumeIsCrashSafe(h: Hash, d: Disk, demoted: set<string>, pendingOrder: seq<nat>, fileOrder: seq<string>)
    requires Safe(h, d) && Walks(d, demoted, pendingOrder, fileOrder)
    ensures SafeThroughout(h, d, ResumeEffects(d.db, demoted, pendingOrder, fileOrder))
  {
    hide Safe, SafeThroughout, ResumedDb;
    var db := ResumedDb(d.db, demoted);
    var first := PendingRemovals(pendingOrder);
    PendingOnlyIsSafe(h, d, first);
    PendingRemoved(d, pendingOrder);
    ResumedDbIsSafe(h, d, demoted);
    var cleared := DoAll(d, first);
    PendingIsIgnored(h, d.(db := db), cleared.(db := db));
    SafeSnoc(h, d, first, Transact(db));
    DoSnoc(d, first, Transact(db));
    forall f | f in fileOrder ensures CompletedPath(f) !in Referenced(db) { assert f in Members(fileOrder); }
    RemovalsAreSafe(h, cleared.(db := db), fileOrder);
    SafeConcat(h, d, first + [Transact(db)], FileRemovals(fileOrder));
  }

  lemma PendingIsIgnored(h: Hash, a: Disk, b: Disk)
    requires Safe(h, a) && a.completed == b.completed && a.db == b.db
    ensures Safe(h, b)
  {
  }

  // ---- The object ----

  /** `next` runs through the reset of tasks that are not committed. */
  function ResetRow(row: TaskRow, t: string, kept: set<string>): TaskRow {
    if t in kept then row else row.(status := Some(if row.dependsOn <= kept then Ready else Planned))
  }

  /** The tables once the tasks in `demoted` lost their output and their rows. */
  function DemotedDb(db: Database, demoted: set<string>): Database {
    Database(map t | t in db.tasks :: if t in demoted then db.tasks[t].(status := Some(Planned), output := None) else db.tasks[t],
             map id | id in db.artifacts && db.artifacts[id].taskId !in demoted :: db.artifacts[id])
  }

  lemma DemoteThenReset(db: Database, demoted: set<string>, next: map<string, TaskRow>)
    requires demoted <= CommittedTasks(db)
    requires next.Keys == db.tasks.Keys
    requires forall t :: t in db.tasks ==>
               next[t] == ResetRow(DemotedDb(db, demoted).tasks[t], t, CommittedTasks(DemotedDb(db, demoted)))
    ensures DemotedDb(db, demoted).(tasks := next) == ResumedDb(db, demoted)
  {
    var w := DemotedDb(db, demoted);
    assert CommittedTasks(w) == CommittedTasks(db) - demoted;
    var r := ResumedDb(db, demoted);
    assert next == r.tasks;
  }

  lemma DemoteOne(db: Database, demoted: set<string>, t: string)
    requires t in db.tasks && t !in demoted
    ensures var w := DemotedDb(db, demoted);
            && t in w.tasks
            && DemotedDb(db, demoted + {t}) ==
               Database(w.tasks[t := w.tasks[t].(status := Some(Planned), output := None)],
                        map id | id in w.artifacts && w.artifacts[id].taskId != t :: w.artifacts[id])
  {
    var w, v := DemotedDb(db, demoted), DemotedDb(db, demoted + {t});
    assert v.tasks == w.tasks[t := w.tasks[t].(status := Some(Planned), output := None)];
    assert v.artifacts == map id | id in w.artifacts && w.artifacts[id].taskId != t :: w.artifacts[id];
  }

  lemma NothingDemoted(db: Database)
    ensures DemotedDb(db, {}) == db
  {
    assert DemotedDb(db, {}).tasks == db.tasks && DemotedDb(db, {}).artifacts == db.artifacts;
  }

  lemma NoTasksIn()
    ensures TasksIn([]) == {}
  {
  }

  lemma SameTasks(db: Database, demoted: set<string>)
    ensures DemotedDb(db, demoted).tasks.Keys == db.tasks.Keys
  {
  }

  /** Demoting some tasks changes nothing that is checked of another. */
  lemma DemotedElsewhere(h: Hash, completed: map<string, File>, db: Database, demoted: set<string>, t: string, memo: Memo)
    requires t in db.tasks && t !in demoted
    ensures var w := DemotedDb(db, demoted);
            t in w.tasks && TaskChecked(h, completed, w, t, memo) == TaskChecked(h, completed, db, t, memo)
  {
    var w := DemotedDb(db, demoted);
    assert RowsOf(w, t) == RowsOf(db, t);
    var listed := Listing(RowsOf(db, t));
    ListedMembers(RowsOf(db, t), listed);
    SameRowsChecked(h, completed, w.artifacts, db.artifacts, listed, t, memo);
  }

  lemma {:induction false} SameRowsChecked(h: Hash, completed: map<string, File>, a: map<string, ArtifactRow>, b: map<string, ArtifactRow>, listed: seq<string>, t: string, memo: Memo)
    requires forall k :: 0 <= k < |listed| ==> listed[k] in a && listed[k] in b && a[listed[k]] == b[listed[k]]
    ensures RowsChecked(h, completed, a, listed, t, memo) == RowsChecked(h, completed, b, listed, t, memo)
  {
    hide Verdict, Remember;
    if listed != [] { SameRowsChecked(h, completed, a, b, listed[..|listed| - 1], t, memo); }
  }

  lemma FileRemovalsSnoc(order: seq<string>, name: string)
    ensures FileRemovals(order + [name]) == FileRemovals(order) + [RemoveCompleted(name)]
  {
  }

  lemma UnreferencedFiles(completed: map<string, File>, db: Database)
    ensures (set f | f in completed && CompletedPath(f) !in Referenced(db)) == completed.Keys - KeptFiles(completed, db).Keys
  {
  }

  class RecoveryJournal {
    const hash: Hash
    const sources: map<string, Fingerprint>
    var pending: map<nat, seq<byte>>
    var completed: map<string, File>
    var db: Database
    var nextName: nat
    ghost var effects: seq<Effect>

    function View(): Disk
      reads this
    {
      Disk(pending, completed, db)
    }

    /** Opens whatever a crash or an earlier run left on the disk. */
    constructor (hash: Hash, sources: map<string, Fingerprint>, disk: Disk, nextName: nat)
      ensures View() == disk && effects == [] && this.hash == hash && this.sources == sources
    {
      this.hash, this.sources := hash, sources;
      pending, completed, db := disk.pending, disk.completed, disk.db;
      this.nextName := nextName;
      effects := [];
    }

    // The effects. Each method below is one change of the disk that happens entirely or not at all.

    method Write(name: nat, bytes: seq<byte>)
      modifies `pending, `effects
      ensures View() == Do(old(View()), WritePending(name, bytes)) && effects == old(effects) + [WritePending(name, bytes)]
    {
      pending := pending[name := bytes];
      effects := effects + [WritePending(name, bytes)];
    }

    method Discard(name: nat)
      modifies `pending, `effects
      ensures View() == Do(old(View()), RemovePending(name)) && effects == old(effects) + [RemovePending(name)]
    {
      pending := pending - {name};
      effects := effects + [RemovePending(name)];
    }

    method Rename(name: nat, digest: string)
      requires name in pending
      modifies `pending, `completed, `effects
      ensures View() == Do(old(View()), Publish(name, digest)) && effects == old(effects) + [Publish(name, digest)]
    {
      completed := completed[digest := Regular(pending[name])];
      pending := pending - {name};
      effects := effects + [Publish(name, digest)];
    }

    method Delete(file: string)
      modifies `completed, `effects
      ensures View() == Do(old(View()), RemoveCompleted(file)) && effects == old(effects) + [RemoveCompleted(file)]
    {
      completed := completed - {file};
      effects := effects + [RemoveCompleted(file)];
    }

    method CommitTransaction(next: Database)
      modifies `db, `effects
      ensures View() == Do(old(View()), Transact(next)) && effects == old(effects) + [Transact(next)]
    {
      db := next;
      effects := effects + [Transact(next)];
    }

    // ---- Task lifecycle ----

    method RecordTask(taskId: string, dependsOn: seq<string>) returns (r: Result<(), JournalError>)
      modifies this
      ensures r == (match RecordError(old(db), taskId, dependsOn) case Some(e) => Err(e) case None => Ok(()))
      ensures effects == old(effects) + RecordEffects(old(db), taskId, dependsOn)
      ensures View() == DoAll(old(View()), RecordEffects(old(db), taskId, dependsOn))
    {
      var error := RecordError(db, taskId, dependsOn);
      if error.Some? {
        return Err(error.value);
      }
      var row := TaskRow(Some(Planned), None, set d | d in dependsOn);
      ghost var transaction: seq<Effect> := [Transact(db.(tasks := db.tasks[taskId := row]))];
      assert transaction[..0] == [];
      CommitTransaction(db.(tasks := db.tasks[taskId := row]));
      return Ok(());
    }

    method SetTaskState(taskId: string, next: TaskState) returns (r: Result<(), JournalError>)
      modifies this
      ensures r == (match SetStateError(old(db), taskId, next) case Some(e) => Err(e) case None => Ok(()))
      ensures effects == old(effects) + SetStateEffects(old(db), taskId, next)
      ensures View() == DoAll(old(View()), SetStateEffects(old(db), taskId, next))
    {
      if taskId !in db.tasks {
        return Err(UnknownTask);
      }
      var current := db.tasks[taskId].status;
      if current.None? {
        return Err(UnknownStatus);
      }
      if next == Committed || !TransitionAllowed(current.value, next) {
        return Err(InvalidTransition);
      }
      ghost var transaction := SetStateEffects(db, taskId, next);
      assert transaction[..0] == [];
      CommitTransaction(db.(tasks := db.tasks[taskId := db.tasks[taskId].(status := Some(next))]));
      return Ok(());
    }

    // ---- Commit ----

    /** Since `from`, exactly `done` happened. */
    ghost predicate Did(from: Disk, earlier: seq<Effect>, done: seq<Effect>)
      reads this
    {
      View() == DoAll(from, done) && effects == earlier + done
    }

    /** Stages every artifact, or discards what was staged at the first that does not hash to its digest. */
    method Stage(artifacts: seq<Artifact>, first: nat) returns (ok: bool)
      modifies this
      ensures ok == (FirstMismatch(hash, artifacts) == |artifacts|)
      ensures Did(old(View()), old(effects), StageEffects(hash, artifacts, first))
      ensures nextName == old(nextName)
    {
      hide FirstMismatch, DoAll, StageEffects;
      ghost var from, earlier := View(), effects;
      var i := 0;
      NothingDone(from);
      assert Writes(artifacts[..0], first) == [];
      hide Writes;
      assert earlier + [] == earlier;
      while i < |artifacts|
        invariant 0 <= i <= |artifacts| && nextName == old(nextName)
        invariant forall k :: 0 <= k < i ==> Matches(hash, artifacts[k])
        invariant Did(from, earlier, Writes(artifacts[..i], first))
      {
        WritesSnoc(artifacts, first, i);
        DoSnoc(from, Writes(artifacts[..i], first), WritePending(first + i, artifacts[i].bytes));
        Write(first + i, artifacts[i].bytes);
        if hash(artifacts[i].bytes) != artifacts[i].blake3 {
          FirstMismatchIs(hash, artifacts, i);
          StageFails(hash, artifacts, first, i);
          ghost var done := Writes(artifacts[..i + 1], first);
          DoSnoc(from, done, RemovePending(first + i));
          Discard(first + i);
          DiscardAll(from, earlier, done + [RemovePending(first + i)], first, i);
          return false;
        }
        i := i + 1;
      }
      StageSucceeds(hash, artifacts, first);
      assert artifacts[..i] == artifacts;
      return true;
    }

    method DiscardAll(ghost from: Disk, ghost earlier: seq<Effect>, ghost done: seq<Effect>, first: nat, n: nat)
      requires Did(from, earlier, done)
      modifies this
      ensures Did(from, earlier, done + Removals(first, n)) && nextName == old(nextName)
    {
      hide DoAll;
      RemovalsStart(done, first);
      hide Removals;
      for i := 0 to n
        invariant Did(from, earlier, done + Removals(first, i)) && nextName == old(nextName)
      {
        RemovalsSnoc(done, first, i);
        DoSnoc(from, done + Removals(first, i), RemovePending(first + i));
        Discard(first + i);
        assert earlier + (done + Removals(first, i)) + [RemovePending(first + i)]
            == earlier + (done + Removals(first, i) + [RemovePending(first + i)]);
      }
    }

    /** Renames one staged artifact into place unless its content is already completed. */
    method PublishBlob(a: Artifact, name: nat)
      requires name in pending && pending[name] == a.bytes
      modifies `pending, `completed, `effects
      ensures View() == Do(old(View()), PublishOne(hash, old(completed), a, name))
      ensures effects == old(effects) + [PublishOne(hash, old(completed), a, name)]
      ensures pending == old(pending) - {name}
      ensures completed == WithBlob(hash, old(completed), a)
    {
      if CheckBlob(hash, completed, a.blake3, |a.bytes|) == BlobValid {
        Discard(name);
      } else {
        Rename(name, a.blake3);
      }
    }

    /** The first `i` artifacts are published since `from`, the others wait. */
    ghost predicate PublishedSoFar(from: Disk, earlier: seq<Effect>, artifacts: seq<Artifact>, first: nat, i: nat)
      requires i <= |artifacts|
      reads this
    {
      && Did(from, earlier, PublishEffects(hash, from.completed, artifacts[..i], first))
      && completed == Published(hash, from.completed, artifacts[..i]) && db == from.db
      && forall k: nat :: k >= i ==> Waiting(View(), artifacts, first, k)
    }

    method PublishNext(artifacts: seq<Artifact>, first: nat, i: nat, ghost from: Disk, ghost earlier: seq<Effect>)
      requires i < |artifacts| && PublishedSoFar(from, earlier, artifacts, first, i)
      modifies `pending, `completed, `effects
      ensures PublishedSoFar(from, earlier, artifacts, first, i + 1)
    {
      hide DoAll, Do, CheckBlob, PublishOne, Waiting, PublishEffects, Published;
      ghost var before := View();
      IsWaiting(before, artifacts, first, i);
      PublishSnoc(hash, from.completed, artifacts, first, i);
      DoSnoc(from, PublishEffects(hash, from.completed, artifacts[..i], first), PublishOne(hash, completed, artifacts[i], first + i));
      PublishBlob(artifacts[i], first + i);
      StillWaiting(before, View(), artifacts, first, i);
    }

    method PublishAll(artifacts: seq<Artifact>, first: nat)
      requires forall i :: Waiting(View(), artifacts, first, i)
      modifies this
      ensures Did(old(View()), old(effects), PublishEffects(hash, old(completed), artifacts, first))
      ensures nextName == old(nextName) && db == old(db)
    {
      ghost var from, earlier := View(), effects;
      NothingDone(from);
      assert artifacts[..0] == [] && artifacts[..|artifacts|] == artifacts;
      assert earlier + [] == earlier;
      PublishNothing(hash, completed, first);
      hide DoAll, Waiting, PublishEffects, Published;
      for i := 0 to |artifacts|
        invariant nextName == old(nextName) && PublishedSoFar(from, earlier, artifacts, first, i)
      {
        PublishNext(artifacts, first, i, from, earlier);
      }
    }

    /** Blobs first, then one transaction: performs exactly the effects of a commit, in that order. */
    method CommitTask(commit: TaskCommit) returns (r: Result<(), JournalError>)
      modifies this
      ensures r == (match CommitError(hash, old(db), commit) case Some(e) => Err(e) case None => Ok(()))
      ensures Did(old(View()), old(effects), CommitEffects(hash, old(View()), commit, old(nextName)))
    {
      hide StageEffects, PublishEffects;
      ghost var from, earlier := View(), effects;
      assert earlier + [] == earlier;
      if !WellFormed(commit) {
        return Err(InvalidArgument);
      }
      if commit.taskId !in db.tasks {
        return Err(UnknownTask);
      }
      var current := db.tasks[commit.taskId].status;
      if current.None? {
        return Err(UnknownStatus);
      }
      if current != Some(ResultReceived) {
        return Err(InvalidTransition);
      }
      var first := nextName;
      nextName := nextName + |commit.artifacts|;
      ghost var stage := StageEffects(hash, commit.artifacts, first);
      var staged := Stage(commit.artifacts, first);
      if !staged {
        return Err(ArtifactMismatch);
      }
      AllStaged(hash, from, commit.artifacts, first);
      ghost var publish := PublishEffects(hash, completed, commit.artifacts, first);
      PublishAll(commit.artifacts, first);
      DoConcat(from, stage, publish);
      assert earlier + stage + publish == earlier + (stage + publish);
      if exists i :: 0 <= i < |commit.artifacts| && commit.artifacts[i].id in db.artifacts {
        assert stage + publish + [] == stage + publish;
        return Err(DuplicateRecord);
      }
      DoSnoc(from, stage + publish, Transact(CommittedDb(db, commit)));
      CommitTransaction(CommittedDb(db, commit));
      return Ok(());
    }

    // ---- Resume ----

    method VerifySources(current: seq<Source>) returns (ok: bool)
      ensures ok <==> SourcesMatch(sources, current)
    {
      var seen: set<string> := {};
      for i := 0 to |current|
        invariant forall k :: 0 <= k < i ==> current[k].sourceId in sources && sources[current[k].sourceId] == current[k].fingerprint
        invariant forall id :: id in seen <==> exists k :: 0 <= k < i && current[k].sourceId == id
      {
        if current[i].sourceId !in sources || sources[current[i].sourceId] != current[i].fingerprint {
          return false;
        }
        seen := seen + {current[i].sourceId};
      }
      return forall id :: id in sources ==> id in seen;
    }

    method DiscardPending() returns (ghost order: seq<nat>)
      modifies this
      ensures Members(order) == old(pending).Keys
      ensures Did(old(View()), old(effects), PendingRemovals(order)) && nextName == old(nextName)
    {
      hide DoAll, Walk, Members;
      ghost var from, earlier := View(), effects;
      NothingDone(from);
      order := [];
      assert earlier + [] == earlier && PendingRemovals(order) == [];
      var names := pending.Keys;
      WalkStarts(names);
      while names != {}
        invariant nextName == old(nextName)
        invariant Walk(old(pending).Keys, names, order)
        invariant Did(from, earlier, PendingRemovals(order))
        decreases |names|
      {
        var name :| name in names;
        WalkOn(old(pending).Keys, names, order, name);
        names := names - {name};
        DoSnoc(from, PendingRemovals(order), RemovePending(name));
        assert PendingRemovals(order + [name]) == PendingRemovals(order) + [RemovePending(name)];
        Discard(name);
        order := order + [name];
      }
      WalkEnds(old(pending).Keys, order);
    }

    /** Checks the listed rows until one fails. */
    method CheckRows(rows: map<string, ArtifactRow>, listed: seq<string>, t: string, memo: Memo) returns (r: Checked)
      requires forall k :: 0 <= k < |listed| ==> listed[k] in rows
      ensures r == RowsChecked(hash, completed, rows, listed, t, memo)
    {
      hide Verdict, Remember;
      var next := memo;
      for i := 0 to |listed|
        invariant RowsChecked(hash, completed, rows, listed[..i], t, memo) == Checked(None, next)
      {
        assert listed[..i + 1][..i] == listed[..i];
        var row := rows[listed[i]];
        var verdict := Verdict(hash, completed, next, row);
        next := Remember(hash, completed, next, row);
        if verdict.Some? {
          FailureStands(hash, completed, rows, listed, t, memo, i + 1);
          return Checked(Some(DemotedTask(t, Some(listed[i]), verdict.value)), next);
        }
      }
      assert listed[..|listed|] == listed;
      return Checked(None, next);
    }

    /** Checks one committed task's artifacts, in order, until one fails. */
    method CheckTask(work: Database, t: string, memo: Memo) returns (r: Checked)
      requires t in work.tasks
      ensures r == TaskChecked(hash, completed, work, t, memo)
      ensures RowsAgree(completed, work) && Faithful(hash, completed, work, memo) ==>
                Faithful(hash, completed, work, r.memo) && (r.failure.None? <==> Passes(hash, completed, work, t))
      ensures r.failure.Some? ==>
                Justified(hash, completed, work, RowsAgree(completed, work) && Faithful(hash, completed, work, memo), t, r.failure.value)
    {
      hide RowsAgree, Faithful, Passes, Justified, Lists, RowsChecked;
      TaskCheckedJustified(hash, completed, work, t, memo);
      if RowsAgree(completed, work) && Faithful(hash, completed, work, memo) {
        TaskCheckedRight(hash, completed, work, t, memo);
      }
      if work.tasks[t].output.None? {
        return Checked(Some(DemotedTask(t, None, OutputDigestMissing)), memo);
      }
      var ids := RowsOf(work, t);
      var listed := ListInOrder(ids);
      ListedMembers(ids, listed);
      r := CheckRows(work.artifacts, listed, t, memo);
    }

    /** Demotes, in the working tables, each committed task whose recorded outputs fail verification. */
    method VerifyCommittedTasks() returns (work: Database, demoted: seq<DemotedTask>, ghost failed: set<string>)
      ensures demoted == Report(hash, completed, db) && failed == Failing(hash, completed, db)
      ensures failed <= CommittedTasks(db) && work == DemotedDb(db, failed)
      ensures RowsAgree(completed, db) ==> failed == set x | x in CommittedTasks(db) && !Verifies(hash, completed, db, x)
      ensures Reports(hash, completed, db, failed, demoted)
    {
      hide Lists, Verifies, Reports, Faithful, RowsAgree, DemotedDb, TaskChecked, Passes, TasksIn, CheckRow, StringOrder;
      var listed := ListInOrder(CommittedTasks(db));
      ListedMembers(CommittedTasks(db), listed);
      work, demoted, failed := db, [], {};
      var memo: Memo := map[];
      NothingDemoted(db);
      NoTasksIn();
      for i := 0 to |listed|
        invariant TasksChecked(hash, completed, db, listed[..i]) == Verified(demoted, memo)
        invariant failed == TasksIn(demoted) && failed <= Members(listed[..i]) && work == DemotedDb(db, failed)
      {
        var t := listed[i];
        assert listed[..i + 1][..i] == listed[..i] && listed[..i + 1] == listed[..i] + [t];
        ListedOnce(CommittedTasks(db), listed, i);
        DemotedElsewhere(hash, completed, db, failed, t, memo);
        var r := CheckTask(work, t, memo);
        memo := r.memo;
        if r.failure.Some? {
          TasksInSnoc(demoted, r.failure.value);
          demoted := demoted + [r.failure.value];
          DemoteOne(db, failed, t);
          work := DemoteTask(work, t);
          failed := failed + {t};
        }
      }
      assert listed[..|listed|] == listed;
      ReportIsRight(hash, completed, db);
    }

    method DemoteTask(work: Database, t: string) returns (next: Database)
      requires t in work.tasks
      ensures next == Database(work.tasks[t := work.tasks[t].(status := Some(Planned), output := None)],
                               map id | id in work.artifacts && work.artifacts[id].taskId != t :: work.artifacts[id])
    {
      var rows := map id | id in work.artifacts && work.artifacts[id].taskId != t :: work.artifacts[id];
      next := Database(work.tasks[t := work.tasks[t].(status := Some(Planned), output := None)], rows);
    }

    /** Every task not committed restarts from ready or planned. */
    method ResetIncompleteTasks(work: Database) returns (tasks: map<string, TaskRow>)
      ensures tasks.Keys == work.tasks.Keys
      ensures forall t :: t in work.tasks ==> tasks[t] == ResetRow(work.tasks[t], t, CommittedTasks(work))
    {
      tasks := work.tasks;
      var kept := CommittedTasks(work);
      var rest := work.tasks.Keys;
      while rest != {}
        invariant rest <= work.tasks.Keys && tasks.Keys == work.tasks.Keys
        invariant forall t :: t in work.tasks ==> tasks[t] == if t in rest then work.tasks[t] else ResetRow(work.tasks[t], t, kept)
        decreases |rest|
      {
        var t :| t in rest;
        rest := rest - {t};
        if tasks[t].status != Some(Committed) {
          var ready := forall d :: d in tasks[t].dependsOn ==> d in kept;
          tasks := tasks[t := tasks[t].(status := Some(if ready then Ready else Planned))];
        }
      }
    }

    lemma StartFileRemovals(from: Disk, earlier: seq<Effect>)
      requires from == View() && earlier == effects
      ensures Did(from, earlier, FileRemovals([]))
    {
      NothingDone(from);
      assert earlier + [] == earlier && FileRemovals([]) == [];
    }

    method DeleteNext(file: string, ghost order: seq<string>, ghost from: Disk, ghost earlier: seq<Effect>)
      requires Did(from, earlier, FileRemovals(order))
      modifies `completed, `effects
      ensures Did(from, earlier, FileRemovals(order + [file]))
    {
      hide DoAll;
      DoSnoc(from, FileRemovals(order), RemoveCompleted(file));
      FileRemovalsSnoc(order, file);
      Delete(file);
    }

    /** Deletes every completed file whose path no artifact row has. */
    method DiscardUnreferencedCompleted() returns (ghost order: seq<string>)
      modifies this
      ensures Members(order) == old(completed).Keys - KeptFiles(old(completed), old(db)).Keys
      ensures Did(old(View()), old(effects), FileRemovals(order)) && nextName == old(nextName)
    {
      hide KeptFiles, Referenced, Walk, Members;
      ghost var from, earlier := View(), effects;
      order := [];
      StartFileRemovals(from, earlier);
      hide Did, DoAll, FileRemovals, CompletedPath;
      var referenced := Referenced(db);
      var names := set f | f in completed && CompletedPath(f) !in referenced;
      ghost var all := names;
      UnreferencedFiles(completed, db);
      WalkStarts(all);
      while names != {}
        invariant nextName == old(nextName) && db == old(db)
        invariant Walk(all, names, order)
        invariant Did(from, earlier, FileRemovals(order))
        decreases |names|
      {
        var name :| name in names;
        WalkOn(all, names, order, name);
        names := names - {name};
        DeleteNext(name, order, from, earlier);
        order := order + [name];
      }
      WalkEnds(all, order);
    }

    /** Performs exactly the effects of a resume, in order, with the specified report; on a journal whose rows
        agree, it demotes exactly the committed tasks that do not verify. */
    method Resume(current: seq<Source>)
      returns (r: Result<seq<DemotedTask>, JournalError>, ghost failed: set<string>, ghost pendingOrder: seq<nat>, ghost fileOrder: seq<string>)
      modifies this
      ensures r.Ok? <==> SourcesMatch(sources, current)
      ensures r.Err? ==> r.error == SourceMismatch && View() == old(View()) && effects == old(effects)
      ensures r.Ok? ==>
                && r.value == Report(hash, old(completed), old(db)) && failed == Failing(hash, old(completed), old(db))
                && failed <= CommittedTasks(old(db))
                && Walks(old(View()), failed, pendingOrder, fileOrder)
                && Did(old(View()), old(effects), ResumeEffects(old(db), failed, pendingOrder, fileOrder))
                && (RowsAgree(old(completed), old(db)) ==>
                      failed == set x | x in CommittedTasks(old(db)) && !Verifies(hash, old(completed), old(db), x))
      ensures r.Ok? ==> Reports(hash, old(completed), old(db), failed, r.value)
    {
      hide DoAll, Reports, Report, Failing, KeptFiles, ResumedDb, DemotedDb, Verifies, RowsAgree, PendingRemovals, FileRemovals, SourcesMatch;
      failed, pendingOrder, fileOrder := {}, [], [];
      var same := VerifySources(current);
      if !same {
        return Err(SourceMismatch), failed, pendingOrder, fileOrder;
      }
      ghost var from, earlier := View(), effects;
      pendingOrder := DiscardPending();
      PendingRemoved(from, pendingOrder);
      var work, demoted, lost := VerifyCommittedTasks();
      failed := lost;
      var tasks := ResetIncompleteTasks(work);
      SameTasks(db, failed);
      DemoteThenReset(db, failed, tasks);
      ghost var first := PendingRemovals(pendingOrder);
      ghost var resumed := ResumedDb(db, failed);
      DoSnoc(from, first, Transact(resumed));
      CommitTransaction(work.(tasks := tasks));
      fileOrder := DiscardUnreferencedCompleted();
      DoConcat(from, first + [Transact(resumed)], FileRemovals(fileOrder));
      assert earlier + first + [Transact(resumed)] + FileRemovals(fileOrder)
          == earlier + (first + [Transact(resumed)] + FileRemovals(fileOrder));
      return Ok(demoted), failed, pendingOrder, fileOrder;
    }
  }

  lemma WritesSnoc(artifacts: seq<Artifact>, first: nat, i: nat)
    requires i < |artifacts|
    ensures Writes(artifacts[..i + 1], first) == Writes(artifacts[..i], first) + [WritePending(first + i, artifacts[i].bytes)]
  {
  }

  lemma RemovalsStart(done: seq<Effect>, first: nat)
    ensures done + Removals(first, 0) == done
  {
  }

  lemma RemovalsSnoc(done: seq<Effect>, first: nat, i: nat)
    ensures done + Removals(first, i + 1) == done + Removals(first, i) + [RemovePending(first + i)]
  {
    assert Removals(first, i + 1) == Removals(first, i) + [RemovePending(first + i)];
  }

  lemma FirstMismatchIs(h: Hash, artifacts: seq<Artifact>, n: nat)
    requires n <= |artifacts| && (forall k :: 0 <= k < n ==> Matches(h, artifacts[k]))
    requires n < |artifacts| ==> !Matches(h, artifacts[n])
    ensures FirstMismatch(h, artifacts) == n
  {
  }

  lemma StageFails(h: Hash, artifacts: seq<Artifact>, first: nat, n: nat)
    requires n < |artifacts| && FirstMismatch(h, artifacts) == n
    ensures StageEffects(h, artifacts, first) == FailedStaging(artifacts, first, n)
  {
    hide FirstMismatch, FailedStaging;
  }

  lemma StageSucceeds(h: Hash, artifacts: seq<Artifact>, first: nat)
    requires forall k :: 0 <= k < |artifacts| ==> Matches(h, artifacts[k])
    ensures FirstMismatch(h, artifacts) == |artifacts|
    ensures StageEffects(h, artifacts, first) == Writes(artifacts, first)
  {
    FirstMismatchIs(h, artifacts, |artifacts|);
  }

  lemma IsWaiting(d: Disk, artifacts: seq<Artifact>, first: nat, i: nat)
    requires Waiting(d, artifacts, first, i) && i < |artifacts|
    ensures first + i in d.pending && d.pending[first + i] == artifacts[i].bytes
  {
  }

  lemma StillWaiting(before: Disk, after: Disk, artifacts: seq<Artifact>, first: nat, i: nat)
    requires forall k: nat :: k >= i ==> Waiting(before, artifacts, first, k)
    requires after.pending == before.pending - {first + i}
    ensures forall k: nat :: k >= i + 1 ==> Waiting(after, artifacts, first, k)
  {
    forall k: nat | k >= i + 1 ensures Waiting(after, artifacts, first, k) { assert Waiting(before, artifacts, first, k); }
  }

  lemma AllStaged(h: Hash, d: Disk, artifacts: seq<Artifact>, first: nat)
    requires FirstMismatch(h, artifacts) == |artifacts|
    ensures var r := DoAll(d, StageEffects(h, artifacts, first));
            r.completed == d.completed && r.db == d.db && forall i :: Waiting(r, artifacts, first, i)
  {
    WritesStage(d, artifacts, first);
  }
}
