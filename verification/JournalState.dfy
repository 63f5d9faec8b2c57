/**
 What the recovery journal keeps on disk: unverified blobs in pending/, verified ones in completed/ under
 their digest, and the task and artifact tables (journal_layout.cpp, journal_schema.cpp).
 */
module JournalState {
  import opened Basics

  predicate IsLowerHex(c: char) {
    '0' <= c <= '9' || 'a' <= c <= 'f'
  }

  predicate IsDigestHex(s: string) {
    |s| == 64 && forall i :: 0 <= i < |s| ==> IsLowerHex(s[i])
  }

  type Hex = s: string | IsDigestHex(s) witness seq(64, _ => '0')

  type Hash = seq<byte> -> Hex

  /** Of these contents, no two of different length share a digest. */
  ghost predicate NoCollision(h: Hash, contents: set<seq<byte>>) {
    forall x, y :: x in contents && y in contents && h(x) == h(y) ==> |x| == |y|
  }

  lemma FewerDoNotCollide(h: Hash, some: set<seq<byte>>, all: set<seq<byte>>)
    requires some <= all && NoCollision(h, all)
    ensures NoCollision(h, some)
  {
  }

  datatype TaskState =
    | Planned
    | Ready
    | Leased
    | Running
    | ResultReceived
    | Committed
    | FailedRetryable
    | FailedPermanent

  /** The lifecycle edges of a task (task_state.cpp). */
  predicate TransitionAllowed(from: TaskState, to: TaskState) {
    match from
    case Planned => to == Ready
    case Ready => to in {Leased, Running, ResultReceived}
    case Leased => to in {Running, Ready, FailedRetryable}
    case Running => to in {ResultReceived, Ready, FailedRetryable, FailedPermanent}
    case ResultReceived => to in {Committed, FailedRetryable, FailedPermanent}
    case FailedRetryable => to in {Ready, FailedPermanent}
    case Committed => false
    case FailedPermanent => false
  }

  /** A `status` of None is a text that names no state. */
  datatype TaskRow = TaskRow(status: Option<TaskState>, output: Option<string>, dependsOn: set<string>)

  datatype ArtifactRow = ArtifactRow(taskId: string, path: string, blake3: string, byteLength: int)

  datatype Database = Database(tasks: map<string, TaskRow>, artifacts: map<string, ArtifactRow>)

  /** Something in the completed directory that is not a regular file is a symlink or a directory. */
  datatype File = Regular(bytes: seq<byte>) | Irregular

  datatype Disk = Disk(pending: map<nat, seq<byte>>, completed: map<string, File>, db: Database)

  function ContentsOf(completed: map<string, File>): set<seq<byte>> {
    set f | f in completed && completed[f].Regular? :: completed[f].bytes
  }

  function CompletedPath(name: string): string { "blobs/completed/" + name }

  lemma PathsDiffer(a: string, b: string)
    ensures CompletedPath(a) == CompletedPath(b) <==> a == b
  {
    var prefix := "blobs/completed/";
    assert (prefix + a)[|prefix|..] == a && (prefix + b)[|prefix|..] == b;
  }

  datatype BlobCheck = BlobValid | BlobMissing | NotRegularFile | SizeMismatch | DigestMismatch

  function CheckBlob(h: Hash, completed: map<string, File>, name: string, bytes: int): BlobCheck {
    if name !in completed then BlobMissing
    else if completed[name].Irregular? then NotRegularFile
    else if |completed[name].bytes| != bytes then SizeMismatch
    else if h(completed[name].bytes) != name then DigestMismatch
    else BlobValid
  }

  // ---- Effects ----

  /** The atomic changes the journal makes. A crash can come between any two. */
  datatype Effect =
    | WritePending(name: nat, bytes: seq<byte>)
    | RemovePending(name: nat)
    | Publish(name: nat, digest: string)
    | RemoveCompleted(file: string)
    | Transact(db: Database)

  function Do(d: Disk, e: Effect): Disk {
    match e
    case WritePending(name, bytes) => d.(pending := d.pending[name := bytes])
    case RemovePending(name) => d.(pending := d.pending - {name})
    case Publish(name, digest) =>
      if name in d.pending then
        d.(completed := d.completed[digest := Regular(d.pending[name])], pending := d.pending - {name})
      else d
    case RemoveCompleted(file) => d.(completed := d.completed - {file})
    case Transact(db) => d.(db := db)
  }

  function DoAll(d: Disk, es: seq<Effect>): Disk {
    if es == [] then d else Do(DoAll(d, es[..|es| - 1]), es[|es| - 1])
  }

  lemma NothingDone(d: Disk)
    ensures DoAll(d, []) == d
  {
  }

  lemma DoSnoc(d: Disk, es: seq<Effect>, e: Effect)
    ensures DoAll(d, es + [e]) == Do(DoAll(d, es), e)
  {
    assert (es + [e])[..|es|] == es;
  }

  lemma {:induction false} DoConcat(d: Disk, a: seq<Effect>, b: seq<Effect>)
    ensures DoAll(d, a + b) == DoAll(DoAll(d, a), b)
  {
    if b == [] {
      assert a + b == a;
    } else {
      var n := |b| - 1;
      assert a + b == a + b[..n] + [b[n]];
      DoConcat(d, a, b[..n]);
      DoSnoc(d, a + b[..n], b[n]);
    }
  }

  // ---- Safety ----

  /** The row names a completed blob of its digest and length, and belongs to a committed task. */
  ghost predicate RowSafe(h: Hash, completed: map<string, File>, db: Database, id: string) {
    id in db.artifacts ==>
      var row := db.artifacts[id];
      && row.path == CompletedPath(row.blake3) && IsDigestHex(row.blake3) && row.byteLength >= 0
      && CheckBlob(h, completed, row.blake3, row.byteLength) == BlobValid
      && row.taskId in db.tasks && db.tasks[row.taskId].status == Some(Committed)
  }

  /** A committed task has its output digest. */
  ghost predicate TaskSafe(db: Database, t: string) {
    t in db.tasks && db.tasks[t].status == Some(Committed) ==> db.tasks[t].output.Some?
  }

  /** Nothing in pending/ is trusted, so safety does not look at it. */
  ghost predicate Safe(h: Hash, d: Disk) {
    && (forall id :: RowSafe(h, d.completed, d.db, id))
    && (forall t :: TaskSafe(d.db, t))
  }

  /** Safe after every prefix of the effects, that is, wherever a crash comes. */
  ghost predicate SafeThroughout(h: Hash, d: Disk, es: seq<Effect>) {
    forall k :: 0 <= k <= |es| ==> Safe(h, DoAll(d, es[..k]))
  }

  lemma SafeNothing(h: Hash, d: Disk)
    requires Safe(h, d)
    ensures SafeThroughout(h, d, [])
  {
    var none: seq<Effect> := [];
    assert none[..0] == none;
  }

  lemma SafeSnoc(h: Hash, d: Disk, es: seq<Effect>, e: Effect)
    requires SafeThroughout(h, d, es) && Safe(h, Do(DoAll(d, es), e))
    ensures SafeThroughout(h, d, es + [e])
  {
    DoSnoc(d, es, e);
    forall k | 0 <= k <= |es| + 1 ensures Safe(h, DoAll(d, (es + [e])[..k])) {
      if k <= |es| {
        assert (es + [e])[..k] == es[..k];
      } else {
        assert (es + [e])[..k] == es + [e];
      }
    }
  }

  lemma SafeConcat(h: Hash, d: Disk, a: seq<Effect>, b: seq<Effect>)
    requires SafeThroughout(h, d, a) && SafeThroughout(h, DoAll(d, a), b)
    ensures SafeThroughout(h, d, a + b)
  {
    forall k | 0 <= k <= |a| + |b| ensures Safe(h, DoAll(d, (a + b)[..k])) {
      if k <= |a| {
        assert (a + b)[..k] == a[..k];
      } else {
        assert (a + b)[..k] == a + b[..k - |a|];
        DoConcat(d, a, b[..k - |a|]);
      }
    }
  }

  predicate PendingOnly(e: Effect) { e.WritePending? || e.RemovePending? }

  lemma {:induction false} PendingOnlyIsSafe(h: Hash, d: Disk, es: seq<Effect>)
    requires Safe(h, d) && forall i :: 0 <= i < |es| ==> PendingOnly(es[i])
    ensures SafeThroughout(h, d, es)
    ensures DoAll(d, es).completed == d.completed && DoAll(d, es).db == d.db
  {
    if es == [] {
      SafeNothing(h, d);
    } else {
      var n := |es| - 1;
      PendingOnlyIsSafe(h, d, es[..n]);
      assert es == es[..n] + [es[n]] && PendingOnly(es[n]);
      SafeSnoc(h, d, es[..n], es[n]);
    }
  }

  /** Publishing bytes under their digest cannot hurt a row. */
  lemma PublishIsSafe(h: Hash, d: Disk, bytes: seq<byte>)
    requires Safe(h, d) && NoCollision(h, ContentsOf(d.completed) + {bytes})
    ensures Safe(h, d.(completed := d.completed[h(bytes) := Regular(bytes)]))
  {
    var r := d.(completed := d.completed[h(bytes) := Regular(bytes)]);
    forall id ensures RowSafe(h, r.completed, r.db, id) {
      assert RowSafe(h, d.completed, d.db, id);
      if id in d.db.artifacts && d.db.artifacts[id].blake3 == h(bytes) {
        assert d.completed[h(bytes)].bytes in ContentsOf(d.completed) + {bytes};
      }
    }
    forall t ensures TaskSafe(r.db, t) { assert TaskSafe(d.db, t); }
  }
}
