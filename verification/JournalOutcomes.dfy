/** What a commit leaves on the disk when nothing interrupts it, file by file and row by row (journal_tasks.cpp). */
module JournalOutcomes {
  import opened Basics
  import opened JournalState
  import opened JournalCommits

  // ---- Pending files ----

  /** No pending file has one of the names the commit is going to use. */
  ghost predicate NamesAreNew(pending: map<nat, seq<byte>>, first: nat, n: nat) {
    forall name :: name in pending ==> name < first || name >= first + n
  }

  /** Besides `base` only the names from `first + lo` to below `first + hi` are pending. */
  ghost predicate OnlyBetween(base: map<nat, seq<byte>>, pending: map<nat, seq<byte>>, first: nat, lo: nat, hi: nat) {
    && (forall name :: name in pending <==> name in base || first + lo <= name < first + hi)
    && (forall name :: name in base ==> pending[name] == base[name])
  }

  lemma {:induction false} WritesPending(d: Disk, artifacts: seq<Artifact>, first: nat)
    requires NamesAreNew(d.pending, first, |artifacts|)
    ensures OnlyBetween(d.pending, DoAll(d, Writes(artifacts, first)).pending, first, 0, |artifacts|)
  {
    if artifacts != [] {
      var n := |artifacts| - 1;
      WritesPending(d, artifacts[..n], first);
      var earlier := Writes(artifacts[..n], first);
      assert Writes(artifacts, first) == earlier + [WritePending(first + n, artifacts[n].bytes)];
      DoSnoc(d, earlier, WritePending(first + n, artifacts[n].bytes));
    }
  }

  lemma {:induction false} RemovalsPending(d: Disk, base: map<nat, seq<byte>>, first: nat, n: nat)
    requires NamesAreNew(base, first, n) && OnlyBetween(base, d.pending, first, 0, n)
    ensures DoAll(d, Removals(first, n)).pending == base
  {
    RemovedUpTo(d, base, first, n, n);
  }

  lemma {:induction false} RemovedUpTo(d: Disk, base: map<nat, seq<byte>>, first: nat, n: nat, k: nat)
    requires NamesAreNew(base, first, n) && OnlyBetween(base, d.pending, first, 0, n) && k <= n
    ensures OnlyBetween(base, DoAll(d, Removals(first, k)).pending, first, k, n)
    ensures k == n ==> DoAll(d, Removals(first, k)).pending == base
  {
    if k > 0 {
      RemovedUpTo(d, base, first, n, k - 1);
      assert Removals(first, k) == Removals(first, k - 1) + [RemovePending(first + k - 1)];
      DoSnoc(d, Removals(first, k - 1), RemovePending(first + k - 1));
    }
  }

  lemma OneLess(h: Hash, d: Disk, base: map<nat, seq<byte>>, completed: map<string, File>, a: Artifact, first: nat, k: nat, n: nat)
    requires NamesAreNew(base, first, n) && OnlyBetween(base, d.pending, first, k, n) && k < n
    ensures OnlyBetween(base, Do(d, PublishOne(h, completed, a, first + k)).pending, first, k + 1, n)
  {
    hide CheckBlob;
  }

  lemma {:induction false} PublishPending(h: Hash, d: Disk, base: map<nat, seq<byte>>, completed: map<string, File>, artifacts: seq<Artifact>, first: nat, k: nat)
    requires k <= |artifacts| && NamesAreNew(base, first, |artifacts|) && OnlyBetween(base, d.pending, first, 0, |artifacts|)
    ensures OnlyBetween(base, DoAll(d, PublishEffects(h, completed, artifacts[..k], first)).pending, first, k, |artifacts|)
  {
    hide PublishOne, DoAll, Do, OnlyBetween, NamesAreNew, Published, PublishEffects;
    if k == 0 {
      assert artifacts[..0] == [];
      PublishNothing(h, completed, first);
      NothingDone(d);
    } else {
      var m := k - 1;
      PublishPending(h, d, base, completed, artifacts, first, m);
      PublishSnoc(h, completed, artifacts, first, m);
      var before := PublishEffects(h, completed, artifacts[..m], first);
      OneLess(h, DoAll(d, before), base, Published(h, completed, artifacts[..m]), artifacts[m], first, m, |artifacts|);
      DoSnoc(d, before, PublishOne(h, Published(h, completed, artifacts[..m]), artifacts[m], first + m));
    }
  }

  lemma NothingBetween(base: map<nat, seq<byte>>, pending: map<nat, seq<byte>>, first: nat, n: nat)
    requires OnlyBetween(base, pending, first, n, n)
    ensures pending == base
  {
  }

  lemma LastRemoved(d: Disk, base: map<nat, seq<byte>>, first: nat, n: nat)
    requires NamesAreNew(base, first, n + 1) && OnlyBetween(base, d.pending, first, 0, n + 1)
    ensures OnlyBetween(base, Do(d, RemovePending(first + n)).pending, first, 0, n)
  {
  }

  lemma FailedStagingPending(d: Disk, artifacts: seq<Artifact>, first: nat, n: nat)
    requires n < |artifacts| && NamesAreNew(d.pending, first, |artifacts|)
    ensures DoAll(d, FailedStaging(artifacts, first, n)).pending == d.pending
  {
    hide DoAll, Do, OnlyBetween, Writes, Removals;
    var writes := Writes(artifacts[..n + 1], first);
    WritesPending(d, artifacts[..n + 1], first);
    LastRemoved(DoAll(d, writes), d.pending, first, n);
    DoSnoc(d, writes, RemovePending(first + n));
    var staged := DoAll(d, writes + [RemovePending(first + n)]);
    DoConcat(d, writes + [RemovePending(first + n)], Removals(first, n));
    RemovalsPending(staged, d.pending, first, n);
  }

  /** However a commit ends, it leaves nothing of its own pending. */
  lemma NothingLeftPending(h: Hash, d: Disk, commit: TaskCommit, first: nat)
    requires NamesAreNew(d.pending, first, |commit.artifacts|)
    ensures DoAll(d, CommitEffects(h, d, commit, first)).pending == d.pending
  {
    var artifacts := commit.artifacts;
    hide DoAll, PublishEffects, CommittedDb, FailedStaging;
    if !CanCommit(d.db, commit) {
      NothingDone(d);
    } else if FirstMismatch(h, artifacts) < |artifacts| {
      FailedStagingPending(d, artifacts, first, FirstMismatch(h, artifacts));
    } else {
      var stage, publish := Writes(artifacts, first), PublishEffects(h, d.completed, artifacts, first);
      WritesPending(d, artifacts, first);
      assert artifacts[..|artifacts|] == artifacts;
      PublishPending(h, DoAll(d, stage), d.pending, d.completed, artifacts, first, |artifacts|);
      NothingBetween(d.pending, DoAll(DoAll(d, stage), publish).pending, first, |artifacts|);
      DoConcat(d, stage, publish);
      if RowsAreNew(d.db, artifacts) {
        DoSnoc(d, stage + publish, Transact(CommittedDb(d.db, commit)));
      } else {
        assert stage + publish + [] == stage + publish;
      }
    }
  }

  // ---- Completed files ----

  /** A regular file under its name with the bytes' number and digest. */
  ghost predicate GoodFile(h: Hash, completed: map<string, File>, name: string, length: int) {
    name in completed && completed[name].Regular? && |completed[name].bytes| == length && h(completed[name].bytes) == name
  }

  /** What checking a file finds: that it is missing, no regular file, of another length, of another digest, or good. */
  lemma CheckMeans(h: Hash, completed: map<string, File>, name: string, length: int)
    ensures var check, there := CheckBlob(h, completed, name, length), name in completed;
            && (check == BlobMissing <==> !there)
            && (check == NotRegularFile <==> there && !completed[name].Regular?)
            && (check == SizeMismatch <==> there && completed[name].Regular? && |completed[name].bytes| != length)
            && (check == DigestMismatch <==>
                  there && completed[name].Regular? && |completed[name].bytes| == length && h(completed[name].bytes) != name)
            && (check == BlobValid <==> GoodFile(h, completed, name, length))
  {
  }

  /** File `f` after publishing: as it was, unless it is named after the digest of an artifact for which it was not good;
      then it holds the bytes of such an artifact. */
  ghost predicate FileAfter(before: map<string, File>, after: map<string, File>, artifacts: seq<Artifact>, f: string) {
    || ((f in before <==> f in after) && (f in before ==> after[f] == before[f]))
    || exists i :: 0 <= i < |artifacts| && artifacts[i].blake3 == f && f in after && after[f] == Regular(artifacts[i].bytes)
  }

  lemma {:induction false} PublishedFiles(h: Hash, before: map<string, File>, artifacts: seq<Artifact>, f: string)
    ensures FileAfter(before, Published(h, before, artifacts), artifacts, f)
    ensures (forall i :: 0 <= i < |artifacts| ==> artifacts[i].blake3 != f) ==>
              && (f in Published(h, before, artifacts) <==> f in before)
              && (f in before ==> Published(h, before, artifacts)[f] == before[f])
  {
    if artifacts != [] {
      var n := |artifacts| - 1;
      PublishedFiles(h, before, artifacts[..n], f);
      hide CheckBlob;
      assert forall i :: 0 <= i < n ==> artifacts[..n][i] == artifacts[i];
      var after := Published(h, before, artifacts);
      assert after == WithBlob(h, Published(h, before, artifacts[..n]), artifacts[n]);
    }
  }

  // ---- Outcomes ----

  /** The commit is accepted: the task has its result, artifact ids are identifiers that differ and are not in use, and
      every artifact hashes to its digest. */
  ghost predicate Accepted(h: Hash, db: Database, commit: TaskCommit) {
    && commit.taskId in db.tasks && db.tasks[commit.taskId].status == Some(ResultReceived)
    && (forall i :: 0 <= i < |commit.artifacts| ==>
          && IsIdentifier(commit.artifacts[i].id) && commit.artifacts[i].id !in db.artifacts
          && h(commit.artifacts[i].bytes) == commit.artifacts[i].blake3)
    && (forall i, j :: 0 <= i < j < |commit.artifacts| ==> commit.artifacts[i].id != commit.artifacts[j].id)
  }

  /** The tables after an accepted commit: its task committed with its output, a row for each artifact, all else as it was. */
  ghost predicate TablesAfter(before: Database, after: Database, commit: TaskCommit) {
    && after.tasks.Keys == before.tasks.Keys && commit.taskId in before.tasks
    && (forall t :: t in before.tasks && t != commit.taskId ==> after.tasks[t] == before.tasks[t])
    && after.tasks[commit.taskId] == TaskRow(Some(Committed), Some(commit.output), before.tasks[commit.taskId].dependsOn)
    && (forall id :: id in after.artifacts <==> id in before.artifacts || exists i :: 0 <= i < |commit.artifacts| && commit.artifacts[i].id == id)
    && (forall id :: id in before.artifacts ==> id in after.artifacts && after.artifacts[id] == before.artifacts[id])
    && (forall i :: 0 <= i < |commit.artifacts| ==>
          var a := commit.artifacts[i];
          a.id in after.artifacts
          && after.artifacts[a.id] == ArtifactRow(commit.taskId, "blobs/completed/" + a.blake3, a.blake3, |a.bytes|))
  }

  lemma TablesAreAfter(before: Database, commit: TaskCommit)
    requires commit.taskId in before.tasks && DistinctIds(commit.artifacts) && RowsAreNew(before, commit.artifacts)
    ensures TablesAfter(before, CommittedDb(before, commit), commit)
  {
    forall id ensures id in CommittedDb(before, commit).artifacts <==>
                      id in before.artifacts || exists i :: 0 <= i < |commit.artifacts| && commit.artifacts[i].id == id
    {
      WithRowsHas(before.artifacts, commit.taskId, commit.artifacts, id);
    }
    forall id | id in before.artifacts ensures CommittedDb(before, commit).artifacts[id] == before.artifacts[id] {
      WithRowsHas(before.artifacts, commit.taskId, commit.artifacts, id);
    }
    forall i | 0 <= i < |commit.artifacts|
      ensures CommittedDb(before, commit).artifacts[commit.artifacts[i].id] == RowOf(commit.taskId, commit.artifacts[i])
    {
      WithRowsHas(before.artifacts, commit.taskId, commit.artifacts, commit.artifacts[i].id);
    }
    hide WithRows;
  }

  /** An uninterrupted commit: accepted, it leaves its tables and good files; otherwise the tables are as they were. In
      either case files of other digests are untouched and nothing of it is left pending. */
  lemma CommitEnds(h: Hash, d: Disk, commit: TaskCommit, first: nat)
    requires Safe(h, d) && NoCollision(h, ContentsOf(d.completed) + BytesOf(commit.artifacts))
    requires NamesAreNew(d.pending, first, |commit.artifacts|)
    ensures var r := DoAll(d, CommitEffects(h, d, commit, first));
            && r.pending == d.pending
            && (forall f :: FileAfter(d.completed, r.completed, commit.artifacts, f))
            && (if Accepted(h, d.db, commit) then
                  && TablesAfter(d.db, r.db, commit)
                  && forall i :: 0 <= i < |commit.artifacts| ==>
                       GoodFile(h, r.completed, commit.artifacts[i].blake3, |commit.artifacts[i].bytes|)
                else r.db == d.db)
  {
    NothingLeftPending(h, d, commit, first);
    CommitIsCrashSafe(h, d, commit, first);
    var r := DoAll(d, CommitEffects(h, d, commit, first));
    AcceptedMeans(h, d.db, commit);
    hide Safe, NoCollision, ContentsOf, CommitEffects, DoAll, CommittedDb, CheckBlob, FirstMismatch, SafeThroughout, Published;
    forall f ensures FileAfter(d.completed, r.completed, commit.artifacts, f) { PublishedFiles(h, d.completed, commit.artifacts, f); }
    if Accepted(h, d.db, commit) {
      TablesAreAfter(d.db, commit);
      FewerDoNotCollide(h, BytesOf(commit.artifacts), ContentsOf(d.completed) + BytesOf(commit.artifacts));
      forall i | 0 <= i < |commit.artifacts|
        ensures GoodFile(h, r.completed, commit.artifacts[i].blake3, |commit.artifacts[i].bytes|)
      {
        PublishedIsValid(h, d.completed, commit.artifacts, i);
        CheckMeans(h, r.completed, commit.artifacts[i].blake3, |commit.artifacts[i].bytes|);
      }
    }
  }

  lemma AcceptedMeans(h: Hash, db: Database, commit: TaskCommit)
    ensures Accepted(h, db, commit) <==>
              CanCommit(db, commit) && FirstMismatch(h, commit.artifacts) == |commit.artifacts| && RowsAreNew(db, commit.artifacts)
    ensures FirstMismatch(h, commit.artifacts) == |commit.artifacts| <==>
              forall i :: 0 <= i < |commit.artifacts| ==> h(commit.artifacts[i].bytes) == commit.artifacts[i].blake3
  {
  }
}
