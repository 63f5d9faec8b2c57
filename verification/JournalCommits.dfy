/** What committing a task does to the disk, effect by effect (journal_tasks.cpp, journal_artifact_store.cpp). */
module JournalCommits {
  import opened Basics
  import opened JournalState

  /** One output of a task: the digest its producer declared, and the bytes. */
  datatype Artifact = Artifact(id: string, blake3: Hex, bytes: seq<byte>)

  datatype TaskCommit = TaskCommit(taskId: string, output: Hex, artifacts: seq<Artifact>)

  datatype JournalError =
    | InvalidArgument
    | UnknownTask
    | InvalidTransition
    | UnknownStatus
    | ArtifactMismatch
    | DuplicateRecord
    | SourceMismatch

  predicate IsIdentifier(s: string) {
    s != "" && forall i :: 0 <= i < |s| ==>
      var c := s[i]; 'A' <= c <= 'Z' || 'a' <= c <= 'z' || '0' <= c <= '9' || c == '.' || c == '_' || c == '-'
  }

  predicate DistinctIds(artifacts: seq<Artifact>) {
    forall i, j :: 0 <= i < j < |artifacts| ==> artifacts[i].id != artifacts[j].id
  }

  predicate WellFormed(commit: TaskCommit) {
    (forall i :: 0 <= i < |commit.artifacts| ==> IsIdentifier(commit.artifacts[i].id)) && DistinctIds(commit.artifacts)
  }

  predicate Matches(h: Hash, a: Artifact) { h(a.bytes) == a.blake3 }

  /** The first artifact whose bytes are not what was declared, or their number. */
  function FirstMismatch(h: Hash, artifacts: seq<Artifact>): (n: nat)
    ensures n <= |artifacts|
    ensures forall i :: 0 <= i < n ==> Matches(h, artifacts[i])
    ensures n < |artifacts| ==> !Matches(h, artifacts[n])
  {
    if artifacts == [] then 0
    else
      var n := FirstMismatch(h, artifacts[..|artifacts| - 1]);
      if n < |artifacts| - 1 then n
      else if Matches(h, artifacts[|artifacts| - 1]) then |artifacts| else |artifacts| - 1
  }

  // ---- Effects ----

  function Writes(artifacts: seq<Artifact>, first: nat): seq<Effect> {
    seq(|artifacts|, i requires 0 <= i < |artifacts| => WritePending(first + i, artifacts[i].bytes))
  }

  function Removals(first: nat, n: nat): seq<Effect> {
    seq(n, i requires 0 <= i < n => RemovePending(first + i))
  }

  /** Staging everything, or staging up to the first mismatch and discarding it all. */
  function StageEffects(h: Hash, artifacts: seq<Artifact>, first: nat): seq<Effect> {
    var n := FirstMismatch(h, artifacts);
    if n == |artifacts| then Writes(artifacts, first) else FailedStaging(artifacts, first, n)
  }

  function FailedStaging(artifacts: seq<Artifact>, first: nat, n: nat): seq<Effect>
    requires n < |artifacts|
  {
    Writes(artifacts[..n + 1], first) + [RemovePending(first + n)] + Removals(first, n)
  }

  /** Content already completed is shared; anything else is renamed into place. */
  function PublishOne(h: Hash, completed: map<string, File>, a: Artifact, name: nat): Effect {
    if CheckBlob(h, completed, a.blake3, |a.bytes|) == BlobValid then RemovePending(name) else Publish(name, a.blake3)
  }

  /** The completed files once `a` is published. */
  function WithBlob(h: Hash, completed: map<string, File>, a: Artifact): map<string, File> {
    if CheckBlob(h, completed, a.blake3, |a.bytes|) == BlobValid then completed else completed[a.blake3 := Regular(a.bytes)]
  }

  function Published(h: Hash, completed: map<string, File>, artifacts: seq<Artifact>): map<string, File> {
    if artifacts == [] then completed
    else
      var n := |artifacts| - 1;
      WithBlob(h, Published(h, completed, artifacts[..n]), artifacts[n])
  }

  function PublishEffects(h: Hash, completed: map<string, File>, artifacts: seq<Artifact>, first: nat): seq<Effect> {
    if artifacts == [] then []
    else
      var n := |artifacts| - 1;
      PublishEffects(h, completed, artifacts[..n], first)
      + [PublishOne(h, Published(h, completed, artifacts[..n]), artifacts[n], first + n)]
  }

  function RowOf(taskId: string, a: Artifact): ArtifactRow {
    ArtifactRow(taskId, CompletedPath(a.blake3), a.blake3, |a.bytes|)
  }

  function WithRows(rows: map<string, ArtifactRow>, taskId: string, artifacts: seq<Artifact>): map<string, ArtifactRow> {
    if artifacts == [] then rows
    else WithRows(rows, taskId, artifacts[..|artifacts| - 1])[artifacts[|artifacts| - 1].id := RowOf(taskId, artifacts[|artifacts| - 1])]
  }

  predicate RowsAreNew(db: Database, artifacts: seq<Artifact>) {
    forall i :: 0 <= i < |artifacts| ==> artifacts[i].id !in db.artifacts
  }

  predicate CanCommit(db: Database, commit: TaskCommit) {
    WellFormed(commit) && commit.taskId in db.tasks && db.tasks[commit.taskId].status == Some(ResultReceived)
  }

  function CommittedDb(db: Database, commit: TaskCommit): Database
    requires commit.taskId in db.tasks
  {
    Database(db.tasks[commit.taskId := db.tasks[commit.taskId].(status := Some(Committed), output := Some(commit.output))],
             WithRows(db.artifacts, commit.taskId, commit.artifacts))
  }

  /** Stage and verify everything, then publish, then one transaction for all rows and the task's state. */
  function CommitEffects(h: Hash, d: Disk, commit: TaskCommit, first: nat): seq<Effect> {
    if !CanCommit(d.db, commit) then []
    else if FirstMismatch(h, commit.artifacts) < |commit.artifacts| then StageEffects(h, commit.artifacts, first)
    else
      StageEffects(h, commit.artifacts, first)
      + PublishEffects(h, d.completed, commit.artifacts, first)
      + (if RowsAreNew(d.db, commit.artifacts) then [Transact(CommittedDb(d.db, commit))] else [])
  }

  // ---- Safety of every prefix ----

  /** The bytes of artifact `i` wait in pending/ under the name `first + i`. */
  ghost predicate Waiting(d: Disk, artifacts: seq<Artifact>, first: nat, i: nat) {
    i < |artifacts| ==> first + i in d.pending && d.pending[first + i] == artifacts[i].bytes
  }

  lemma {:induction false} WritesStage(d: Disk, artifacts: seq<Artifact>, first: nat)
    ensures var r := DoAll(d, Writes(artifacts, first));
            r.completed == d.completed && r.db == d.db && forall i :: Waiting(r, artifacts, first, i)
  {
    if artifacts != [] {
      var n := |artifacts| - 1;
      WritesStage(d, artifacts[..n], first);
      var earlier := Writes(artifacts[..n], first);
      assert Writes(artifacts, first) == earlier + [WritePending(first + n, artifacts[n].bytes)];
      DoSnoc(d, earlier, WritePending(first + n, artifacts[n].bytes));
      var r := DoAll(d, Writes(artifacts, first));
      forall i: nat ensures Waiting(r, artifacts, first, i) {
        assert Waiting(DoAll(d, earlier), artifacts[..n], first, i);
      }
    }
  }

  lemma SafeWithoutPending(h: Hash, s: Disk, r: Disk, a: Artifact)
    requires Safe(h, s) && Safe(h, s.(completed := s.completed[h(a.bytes) := Regular(a.bytes)])) && r.db == s.db
    requires r.completed == s.completed || r.completed == s.completed[h(a.bytes) := Regular(a.bytes)]
    ensures Safe(h, r)
  {
    var t := s.(completed := s.completed[h(a.bytes) := Regular(a.bytes)]);
    forall id ensures RowSafe(h, r.completed, r.db, id) {
      assert RowSafe(h, s.completed, s.db, id) && RowSafe(h, t.completed, t.db, id);
    }
    forall x ensures TaskSafe(r.db, x) { assert TaskSafe(s.db, x); }
  }

  function BytesOf(artifacts: seq<Artifact>): set<seq<byte>> {
    set a | a in artifacts :: a.bytes
  }

  lemma BytesOfPrefix(artifacts: seq<Artifact>, n: nat)
    requires n <= |artifacts|
    ensures BytesOf(artifacts[..n]) <= BytesOf(artifacts)
    ensures n < |artifacts| ==> artifacts[n].bytes in BytesOf(artifacts)
  {
    assert forall a :: a in artifacts[..n] ==> a in artifacts;
  }

  lemma {:induction false} PublishedContents(h: Hash, completed: map<string, File>, artifacts: seq<Artifact>)
    ensures ContentsOf(Published(h, completed, artifacts)) <= ContentsOf(completed) + BytesOf(artifacts)
  {
    if artifacts != [] {
      var n := |artifacts| - 1;
      PublishedContents(h, completed, artifacts[..n]);
      BytesOfPrefix(artifacts, n);
    }
  }

  lemma NextDoesNotCollide(h: Hash, completed: map<string, File>, artifacts: seq<Artifact>, m: nat)
    requires NoCollision(h, ContentsOf(completed) + BytesOf(artifacts)) && m < |artifacts|
    ensures NoCollision(h, ContentsOf(Published(h, completed, artifacts[..m])) + {artifacts[m].bytes})
  {
    hide NoCollision, ContentsOf, BytesOf, Published;
    PublishedContents(h, completed, artifacts[..m]);
    BytesOfPrefix(artifacts, m);
    FewerDoNotCollide(h, ContentsOf(Published(h, completed, artifacts[..m])) + {artifacts[m].bytes},
                      ContentsOf(completed) + BytesOf(artifacts));
  }

  lemma PublishStep(h: Hash, d: Disk, artifacts: seq<Artifact>, first: nat, m: nat)
    requires Safe(h, d) && m < |artifacts| && Matches(h, artifacts[m])
    requires NoCollision(h, ContentsOf(d.completed) + {artifacts[m].bytes})
    requires forall i: nat :: i >= m ==> Waiting(d, artifacts, first, i)
    ensures var r := Do(d, PublishOne(h, d.completed, artifacts[m], first + m));
            && Safe(h, r) && r.db == d.db
            && r.completed == WithBlob(h, d.completed, artifacts[m])
            && forall i: nat :: i > m ==> Waiting(r, artifacts, first, i)
  {
    var r := Do(d, PublishOne(h, d.completed, artifacts[m], first + m));
    assert Waiting(d, artifacts, first, m);
    PublishIsSafe(h, d, artifacts[m].bytes);
    SafeWithoutPending(h, d, r, artifacts[m]);
    forall i: nat | i > m ensures Waiting(r, artifacts, first, i) { assert Waiting(d, artifacts, first, i); }
  }

  lemma PublishNothing(h: Hash, files: map<string, File>, first: nat)
    ensures PublishEffects(h, files, [], first) == [] && Published(h, files, []) == files
  {
  }

  lemma PublishSnoc(h: Hash, files: map<string, File>, artifacts: seq<Artifact>, first: nat, i: nat)
    requires i < |artifacts|
    ensures var before := Published(h, files, artifacts[..i]);
            && PublishEffects(h, files, artifacts[..i + 1], first) ==
               PublishEffects(h, files, artifacts[..i], first) + [PublishOne(h, before, artifacts[i], first + i)]
            && Published(h, files, artifacts[..i + 1]) ==
               WithBlob(h, before, artifacts[i])
  {
    assert artifacts[..i + 1][..i] == artifacts[..i];
  }

  /** Publishing the first `n` artifacts: every prefix is safe, the rest still wait. */
  lemma {:induction false} PublishKeepsSafe(h: Hash, d: Disk, artifacts: seq<Artifact>, first: nat, n: nat)
    requires Safe(h, d) && n <= |artifacts| && FirstMismatch(h, artifacts) == |artifacts|
    requires NoCollision(h, ContentsOf(d.completed) + BytesOf(artifacts))
    requires forall i: nat :: Waiting(d, artifacts, first, i)
    ensures SafeThroughout(h, d, PublishEffects(h, d.completed, artifacts[..n], first))
    ensures var r := DoAll(d, PublishEffects(h, d.completed, artifacts[..n], first));
            && r.completed == Published(h, d.completed, artifacts[..n]) && r.db == d.db && Safe(h, r)
            && forall i: nat :: i >= n ==> Waiting(r, artifacts, first, i)
  {
    if n > 0 { assert Matches(h, artifacts[n - 1]); }
    hide Safe, SafeThroughout, Waiting, CheckBlob, NoCollision, DoAll, Do, PublishOne, Published, PublishEffects;
    hide FirstMismatch, Matches, ContentsOf, BytesOf, WithBlob;
    if n == 0 {
      assert artifacts[..0] == [];
      PublishNothing(h, d.completed, first);
      NothingDone(d);
      SafeNothing(h, d);
    } else {
      var m := n - 1;
      PublishSnoc(h, d.completed, artifacts, first, m);
      PublishKeepsSafe(h, d, artifacts, first, m);
      NextDoesNotCollide(h, d.completed, artifacts, m);
      var done := PublishEffects(h, d.completed, artifacts[..m], first);
      var next := PublishOne(h, Published(h, d.completed, artifacts[..m]), artifacts[m], first + m);
      PublishStep(h, DoAll(d, done), artifacts, first, m);
      SafeSnoc(h, d, done, next);
      DoSnoc(d, done, next);
    }
  }

  lemma BlobStaysValid(h: Hash, completed: map<string, File>, a: Artifact, b: Artifact)
    requires Matches(h, b) && (b.blake3 == a.blake3 ==> |b.bytes| == |a.bytes|)
    requires CheckBlob(h, completed, a.blake3, |a.bytes|) == BlobValid
    ensures CheckBlob(h, WithBlob(h, completed, b), a.blake3, |a.bytes|) == BlobValid
  {
  }

  lemma BlobBecomesValid(h: Hash, completed: map<string, File>, a: Artifact)
    requires Matches(h, a)
    ensures CheckBlob(h, WithBlob(h, completed, a), a.blake3, |a.bytes|) == BlobValid
  {
  }

  lemma SameDigestSameLength(h: Hash, artifacts: seq<Artifact>, i: nat, j: nat)
    requires NoCollision(h, BytesOf(artifacts)) && i < |artifacts| && j < |artifacts|
    requires Matches(h, artifacts[i]) && Matches(h, artifacts[j]) && artifacts[i].blake3 == artifacts[j].blake3
    ensures |artifacts[i].bytes| == |artifacts[j].bytes|
  {
    BytesOfPrefix(artifacts, i);
    BytesOfPrefix(artifacts, j);
  }

  lemma LastPublished(h: Hash, completed: map<string, File>, artifacts: seq<Artifact>)
    requires artifacts != [] && FirstMismatch(h, artifacts) == |artifacts|
    ensures var n := |artifacts| - 1;
            && FirstMismatch(h, artifacts[..n]) == n && Matches(h, artifacts[n])
            && Published(h, completed, artifacts) == WithBlob(h, Published(h, completed, artifacts[..n]), artifacts[n])
  {
  }

  /** Once published, each artifact is a valid completed blob. */
  lemma {:induction false} PublishedIsValid(h: Hash, completed: map<string, File>, artifacts: seq<Artifact>, i: nat)
    requires NoCollision(h, BytesOf(artifacts)) && FirstMismatch(h, artifacts) == |artifacts| && i < |artifacts|
    ensures CheckBlob(h, Published(h, completed, artifacts), artifacts[i].blake3, |artifacts[i].bytes|) == BlobValid
  {
    hide FirstMismatch, Matches, CheckBlob, WithBlob, Published, NoCollision, BytesOf;
    var n := |artifacts| - 1;
    var before := Published(h, completed, artifacts[..n]);
    LastPublished(h, completed, artifacts);
    if i < n {
      BytesOfPrefix(artifacts, n);
      FewerDoNotCollide(h, BytesOf(artifacts[..n]), BytesOf(artifacts));
      PublishedIsValid(h, completed, artifacts[..n], i);
      if artifacts[n].blake3 == artifacts[i].blake3 { SameDigestSameLength(h, artifacts, n, i); }
      BlobStaysValid(h, before, artifacts[i], artifacts[n]);
    } else {
      BlobBecomesValid(h, before, artifacts[n]);
    }
  }

  lemma {:induction false} WithRowsHas(rows: map<string, ArtifactRow>, taskId: string, artifacts: seq<Artifact>, id: string)
    requires DistinctIds(artifacts)
    ensures id in WithRows(rows, taskId, artifacts) <==> id in rows || exists i :: 0 <= i < |artifacts| && artifacts[i].id == id
    ensures forall i :: 0 <= i < |artifacts| && artifacts[i].id == id ==> WithRows(rows, taskId, artifacts)[id] == RowOf(taskId, artifacts[i])
    ensures id in rows && (forall i :: 0 <= i < |artifacts| ==> artifacts[i].id != id) ==>
              WithRows(rows, taskId, artifacts)[id] == rows[id]
  {
    if artifacts != [] {
      var n := |artifacts| - 1;
      WithRowsHas(rows, taskId, artifacts[..n], id);
      assert forall i :: 0 <= i < n ==> artifacts[..n][i] == artifacts[i];
    }
  }

  /** The transaction of a commit is safe once its blobs are published. */
  lemma CommittedIsSafe(h: Hash, d: Disk, commit: TaskCommit)
    requires Safe(h, d) && CanCommit(d.db, commit) && RowsAreNew(d.db, commit.artifacts)
    requires forall i :: 0 <= i < |commit.artifacts| ==>
               CheckBlob(h, d.completed, commit.artifacts[i].blake3, |commit.artifacts[i].bytes|) == BlobValid
    ensures Safe(h, d.(db := CommittedDb(d.db, commit)))
  {
    var db := CommittedDb(d.db, commit);
    forall id ensures RowSafe(h, d.completed, db, id) {
      WithRowsHas(d.db.artifacts, commit.taskId, commit.artifacts, id);
      assert RowSafe(h, d.completed, d.db, id);
    }
    forall t ensures TaskSafe(db, t) { assert TaskSafe(d.db, t); }
  }

  lemma StageIsSafe(h: Hash, d: Disk, artifacts: seq<Artifact>, first: nat)
    requires Safe(h, d)
    ensures SafeThroughout(h, d, StageEffects(h, artifacts, first))
    ensures var r := DoAll(d, StageEffects(h, artifacts, first)); r.completed == d.completed && r.db == d.db && Safe(h, r)
  {
    var es := StageEffects(h, artifacts, first);
    PendingOnlyIsSafe(h, d, es);
    assert es[..|es|] == es;
  }

  /** Staging and publishing: safe throughout, and every artifact ends up a valid completed blob. */
  lemma PublishedCommit(h: Hash, d: Disk, commit: TaskCommit, first: nat)
    requires Safe(h, d) && FirstMismatch(h, commit.artifacts) == |commit.artifacts|
    requires NoCollision(h, ContentsOf(d.completed) + BytesOf(commit.artifacts))
    ensures var es := StageEffects(h, commit.artifacts, first) + PublishEffects(h, d.completed, commit.artifacts, first);
            && SafeThroughout(h, d, es) && Safe(h, DoAll(d, es)) && DoAll(d, es).db == d.db
            && DoAll(d, es).completed == Published(h, d.completed, commit.artifacts)
            && forall i :: 0 <= i < |commit.artifacts| ==>
                 CheckBlob(h, DoAll(d, es).completed, commit.artifacts[i].blake3, |commit.artifacts[i].bytes|) == BlobValid
  {
    hide Safe, SafeThroughout, CheckBlob, NoCollision, Published, PublishEffects, ContentsOf, BytesOf;
    var artifacts := commit.artifacts;
    FewerDoNotCollide(h, BytesOf(artifacts), ContentsOf(d.completed) + BytesOf(artifacts));
    var stage, publish := StageEffects(h, artifacts, first), PublishEffects(h, d.completed, artifacts, first);
    StageIsSafe(h, d, artifacts, first);
    WritesStage(d, artifacts, first);
    assert artifacts[..|artifacts|] == artifacts;
    PublishKeepsSafe(h, DoAll(d, stage), artifacts, first, |artifacts|);
    SafeConcat(h, d, stage, publish);
    DoConcat(d, stage, publish);
    forall i | 0 <= i < |artifacts|
      ensures CheckBlob(h, Published(h, d.completed, artifacts), artifacts[i].blake3, |artifacts[i].bytes|) == BlobValid
    {
      PublishedIsValid(h, d.completed, artifacts, i);
    }
  }

  /** What committing leaves behind when it runs to its end. */
  ghost predicate CommitOutcome(h: Hash, d: Disk, commit: TaskCommit, r: Disk) {
    if CanCommit(d.db, commit) && FirstMismatch(h, commit.artifacts) == |commit.artifacts| then
      && r.completed == Published(h, d.completed, commit.artifacts)
      && r.db == (if RowsAreNew(d.db, commit.artifacts) then CommittedDb(d.db, commit) else d.db)
    else
      r.completed == d.completed && r.db == d.db
  }

  /** The last effect of a commit. */
  lemma TransactCommit(h: Hash, d: Disk, before: seq<Effect>, commit: TaskCommit)
    requires SafeThroughout(h, d, before) && Safe(h, DoAll(d, before))
    requires CanCommit(DoAll(d, before).db, commit) && RowsAreNew(DoAll(d, before).db, commit.artifacts)
    requires forall i :: 0 <= i < |commit.artifacts| ==>
               CheckBlob(h, DoAll(d, before).completed, commit.artifacts[i].blake3, |commit.artifacts[i].bytes|) == BlobValid
    ensures var db := CommittedDb(DoAll(d, before).db, commit);
            && SafeThroughout(h, d, before + [Transact(db)])
            && DoAll(d, before + [Transact(db)]) == DoAll(d, before).(db := db)
  {
    var r := DoAll(d, before);
    CommittedIsSafe(h, r, commit);
    SafeSnoc(h, d, before, Transact(CommittedDb(r.db, commit)));
    DoSnoc(d, before, Transact(CommittedDb(r.db, commit)));
  }

  /** Wherever a crash interrupts a commit, every row still names a verified blob; and only the last effect
      of a commit changes a row. */
  lemma CommitIsCrashSafe(h: Hash, d: Disk, commit: TaskCommit, first: nat)
    requires Safe(h, d) && NoCollision(h, ContentsOf(d.completed) + BytesOf(commit.artifacts))
    ensures SafeThroughout(h, d, CommitEffects(h, d, commit, first))
    ensures CommitOutcome(h, d, commit, DoAll(d, CommitEffects(h, d, commit, first)))
  {
    hide Safe, SafeThroughout, CheckBlob, StageEffects, PublishEffects, Published, CommittedDb, RowsAreNew, NoCollision;
    if !CanCommit(d.db, commit) {
      SafeNothing(h, d);
    } else if FirstMismatch(h, commit.artifacts) < |commit.artifacts| {
      StageIsSafe(h, d, commit.artifacts, first);
    } else {
      hide CanCommit, DoAll;
      PublishedCommit(h, d, commit, first);
      var before := StageEffects(h, commit.artifacts, first) + PublishEffects(h, d.completed, commit.artifacts, first);
      if RowsAreNew(d.db, commit.artifacts) {
        TransactCommit(h, d, before, commit);
      } else {
        assert before + [] == before;
      }
    }
  }
}
