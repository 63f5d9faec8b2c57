/**
 Pins of the content-addressed cache against eviction: holders, evictors and removers as processes that take
 one file-system step at a time, in any interleaving, and may crash between any two
 (cas_pin.cpp, cas_eviction.cpp, cas_release.cpp, file_lock.cpp).

 A holder lives while it holds the advisory lock on its lock file. Lock files are deleted, so a lock is taken
 on the file that was found, and kept only if that is still the file at the path.
 */
module CachePins {
  import opened Basics

  type Holder = string
  type Digest = string
  type Inode = nat

  /** Where a process is. The first group are the states of a holder, the second those of an evictor or remover,
      which keeps the pins it has read and the lock files and lists it has yet to look at. */
  datatype Process =
    | Opened(id: Holder, inode: Inode)
    | Locked(id: Holder, inode: Inode)
    | Live(id: Holder, inode: Inode, digests: set<Digest>, confirmed: set<Digest>)
    | Adding(id: Holder, inode: Inode, digests: set<Digest>, confirmed: set<Digest>, adding: Digest)
    | Listed(id: Holder, inode: Inode, digests: set<Digest>, confirmed: set<Digest>, adding: Digest)
    | Ending(id: Holder, inode: Inode)
    | Ended(id: Holder, inode: Inode)
    | Starting
    | Reading(scan: Scan)
    | Probing(scan: Scan, id: Holder, inode: Inode)
    | Contended(scan: Scan, id: Holder)
    | Owning(scan: Scan, id: Holder, inode: Inode)
    | Claiming(scan: Scan, id: Holder, inode: Inode)
    | Clearing(scan: Scan, id: Holder, inode: Inode)
    | Cleared(scan: Scan, id: Holder, inode: Inode)
    | Dropping(scan: Scan, id: Holder)
    | Deleting(pinned: set<Digest>)
  {
    /** The holder exists: its pins count. */
    predicate Holds() { Live? || Adding? || Listed? }

    predicate Scans() { Reading? || Probing? || Contended? || Owning? || Claiming? || Clearing? || Cleared? || Dropping? }

    predicate Evicts() { Starting? || Scans() || Deleting? }

    /** It deletes what a dead holder left behind. */
    predicate Reaps() { Claiming? || Clearing? || Cleared? || Dropping? }

    predicate OwnsLock() { Locked? || Holds() || Ending? || Ended? || Owning? || Claiming? || Clearing? || Cleared? }

    /** Its lock file is still the one at its path. */
    predicate OwnsPath() { Holds() || Ending? || Claiming? || Clearing? }
  }

  datatype Scan = Scan(locks: set<Holder>, lists: set<Holder>, pinned: set<Digest>)

  /** The cache directory, the locks the kernel keeps, and the processes. */
  datatype Cache = Cache(
    blobs: set<Digest>,
    pins: map<Holder, set<Digest>>,
    lockFiles: map<Holder, Inode>,
    owners: map<Inode, nat>,
    shared: set<nat>,
    exclusive: Option<nat>,
    processes: map<nat, Process>,
    nextInode: Inode)

  function PinList(c: Cache, id: Holder): set<Digest> {
    if id in c.pins then c.pins[id] else {}
  }

  // ---- Steps ----

  /** The lock file of `id`, created if there is none. */
  function WithLockFile(c: Cache, id: Holder): (r: Cache)
    ensures id in r.lockFiles
  {
    if id in c.lockFiles then c
    else c.(lockFiles := c.lockFiles[id := c.nextInode], nextInode := c.nextInode + 1)
  }

  function At(c: Cache, p: nat, process: Process): Cache {
    c.(processes := c.processes[p := process])
  }

  function Unlock(c: Cache, inode: Inode): Cache {
    c.(owners := c.owners - {inode})
  }

  /** A process ends or crashes: the kernel releases its locks, the files stay as they are. */
  function Gone(c: Cache, p: nat): Cache {
    c.(processes := c.processes - {p},
       owners := map i | i in c.owners && c.owners[i] != p :: c.owners[i],
       shared := c.shared - {p},
       exclusive := if c.exclusive == Some(p) then None else c.exclusive)
  }

  datatype Step =
    | Put(digest: Digest)
    | OpenHolder(p: nat, id: Holder)
    | StartEvictor(p: nat)
    | StartAdd(p: nat, digest: Digest)
    | Advance(p: nat)
    | ProbeNext(p: nat, id: Holder)
    | DropNext(p: nat, id: Holder)
    | FinishScan(p: nat)
    | StartTeardown(p: nat)
    | RemoveBlob(p: nat, digest: Digest)
    | Crash(p: nat)

  predicate Enabled(c: Cache, step: Step) {
    match step
    case Put(_) => true
    case OpenHolder(p, _) => p !in c.processes
    case StartEvictor(p) => p !in c.processes && c.exclusive.None? && c.shared == {}
    case StartAdd(p, _) => p in c.processes && c.processes[p].Live? && c.exclusive.None?
    case Advance(p) =>
      p in c.processes && !c.processes[p].Live? && !c.processes[p].Reading? && !c.processes[p].Deleting?
    case ProbeNext(p, id) => p in c.processes && c.processes[p].Reading? && id in c.processes[p].scan.locks
    case DropNext(p, id) =>
      p in c.processes && c.processes[p].Reading? && c.processes[p].scan.locks == {} && id in c.processes[p].scan.lists
    case FinishScan(p) => p in c.processes && c.processes[p].Reading? && c.processes[p].scan.locks == c.processes[p].scan.lists == {}
    case StartTeardown(p) => p in c.processes && c.processes[p].Live?
    case RemoveBlob(p, digest) => p in c.processes && c.processes[p].Deleting? && digest !in c.processes[p].pinned
    case Crash(p) => p in c.processes
  }

  /** The next system call of a process that has only one way to go on. */
  function Advanced(c: Cache, p: nat): Cache
    requires p in c.processes
  {
    match c.processes[p]
    case Opened(id, inode) =>
      if inode in c.owners then Gone(c, p)
      else At(c.(owners := c.owners[inode := p]), p, Locked(id, inode))
    case Locked(id, inode) =>
      if id in c.lockFiles && c.lockFiles[id] == inode then At(c, p, Live(id, inode, {}, {}))
      else
        var found := WithLockFile(Unlock(c, inode), id);
        At(found, p, Opened(id, found.lockFiles[id]))
    case Adding(id, inode, digests, confirmed, d) =>
      if d in digests then At(c, p, Listed(id, inode, digests, confirmed, d))
      else At(c.(pins := c.pins[id := digests + {d}]), p, Listed(id, inode, digests + {d}, confirmed, d))
    case Listed(id, inode, digests, confirmed, d) =>
      At(c.(shared := c.shared - {p}), p, Live(id, inode, digests, if d in c.blobs then confirmed + {d} else confirmed))
    case Ending(id, inode) => At(c.(lockFiles := c.lockFiles - {id}), p, Ended(id, inode))
    case Ended(id, inode) => Gone(c, p)
    case Starting => At(c, p, Reading(Scan(c.lockFiles.Keys, c.pins.Keys, {})))
    case Probing(scan, id, inode) =>
      if inode in c.owners then At(c, p, Contended(scan, id))
      else At(c.(owners := c.owners[inode := p]), p, Owning(scan, id, inode))
    case Contended(scan, id) =>
      At(c, p, Reading(scan.(locks := scan.locks - {id}, pinned := scan.pinned + PinList(c, id))))
    case Owning(scan, id, inode) =>
      if id in c.lockFiles && c.lockFiles[id] == inode then At(c, p, Claiming(scan, id, inode))
      else At(Unlock(c, inode), p, Reading(scan))
    case Claiming(scan, id, inode) => At(c.(pins := c.pins - {id}), p, Clearing(scan, id, inode))
    case Clearing(scan, id, inode) => At(c.(lockFiles := c.lockFiles - {id}), p, Cleared(scan, id, inode))
    case Cleared(scan, id, inode) => At(Unlock(c, inode), p, Reading(scan.(locks := scan.locks - {id})))
    case Dropping(scan, id) => At(c.(pins := c.pins - {id}), p, Reading(scan))
    case _ => c
  }

  function Apply(c: Cache, step: Step): Cache
    requires Enabled(c, step)
  {
    match step
    case Put(digest) => c.(blobs := c.blobs + {digest})
    case OpenHolder(p, id) =>
      var found := WithLockFile(c, id);
      At(found, p, Opened(id, found.lockFiles[id]))
    case StartEvictor(p) => At(c.(exclusive := Some(p)), p, Starting)
    case StartAdd(p, digest) =>
      var holder := c.processes[p];
      At(c.(shared := c.shared + {p}), p, Adding(holder.id, holder.inode, holder.digests, holder.confirmed, digest))
    case Advance(p) => Advanced(c, p)
    case ProbeNext(p, id) =>
      var found := WithLockFile(c, id);
      At(found, p, Probing(c.processes[p].scan, id, found.lockFiles[id]))
    case DropNext(p, id) =>
      var scan := c.processes[p].scan.(lists := c.processes[p].scan.lists - {id});
      At(c, p, if id in c.lockFiles then Reading(scan) else Dropping(scan, id))
    case FinishScan(p) => At(c, p, Deleting(c.processes[p].scan.pinned))
    case StartTeardown(p) =>
      var holder := c.processes[p];
      At(c.(pins := c.pins - {holder.id}), p, Ending(holder.id, holder.inode))
    case RemoveBlob(p, digest) => c.(blobs := c.blobs - {digest})
    case Crash(p) => Gone(c, p)
  }

  // ---- The invariant ----

  /** What holds of one process. */
  ghost predicate Sound(c: Cache, p: nat) {
    p in c.processes ==>
      var q := c.processes[p];
      && (q.OwnsLock() ==> q.inode in c.owners && c.owners[q.inode] == p)
      && (q.OwnsPath() ==> q.id in c.lockFiles && c.lockFiles[q.id] == q.inode)
      && (q.Adding? || q.Listed? ==> p in c.shared)
      && (q.Listed? ==> q.adding in q.digests)
      && (q.Evicts() ==> c.exclusive == Some(p))
      && (q.Holds() ==> q.digests <= PinList(c, q.id) && q.confirmed <= q.digests && q.confirmed <= c.blobs)
  }

  /** What an evictor `e` knows of a holder `p`: its pins are read, or its lock file is still to be probed. */
  ghost predicate Known(c: Cache, e: nat, p: nat) {
    e in c.processes && p in c.processes && c.processes[p].Holds() ==>
      var q, holder := c.processes[e], c.processes[p];
      && (q.Deleting? ==> holder.digests <= q.pinned)
      && (q.Scans() && !(holder.digests <= q.scan.pinned) ==> holder.id in q.scan.locks)
      && (q.Probing? && q.id == holder.id && holder.digests != {} ==> q.inode == holder.inode)
      && ((q.Cleared? || q.Dropping?) && q.id == holder.id ==> holder.digests == {})
  }

  ghost predicate Inv(c: Cache) {
    && (forall p :: Sound(c, p))
    && (forall e, p :: Known(c, e, p))
    && (c.exclusive.Some? ==> c.shared == {})
  }

  /** Only one process can own the file at a path. */
  lemma PathOwnerIsUnique(c: Cache, p: nat, q: nat)
    requires Inv(c) && p in c.processes && q in c.processes && p != q
    requires c.processes[p].OwnsPath() && c.processes[q].OwnsPath()
    ensures c.processes[p].id != c.processes[q].id
  {
    assert Sound(c, p) && Sound(c, q);
  }

  // ---- Every step keeps it ----

  /** The locks a process that ends leaves behind are no other's. */
  lemma GoneSound(c: Cache, p: nat, x: nat)
    requires Sound(c, x)
    ensures Sound(Gone(c, p), x)
  {
  }

  lemma GoneKnown(c: Cache, p: nat, e: nat, x: nat)
    requires Known(c, e, x)
    ensures Known(Gone(c, p), e, x)
  {
  }

  lemma HolderStaysSound(c: Cache, p: nat)
    requires p in c.processes && !c.processes[p].Evicts() && Sound(c, p)
    ensures Sound(Advanced(c, p), p)
  {
    hide Gone;
    GoneSound(c, p, p);
  }

  lemma HolderKeepsOthersSound(c: Cache, p: nat, x: nat)
    requires p in c.processes && !c.processes[p].Evicts() && p != x && Sound(c, p) && Sound(c, x) && Known(c, p, x)
    ensures Sound(Advanced(c, p), x)
  {
    hide Gone;
    GoneSound(c, p, x);
  }

  lemma HolderKeepsKnown(c: Cache, p: nat, e: nat, x: nat)
    requires p in c.processes && !c.processes[p].Evicts() && Sound(c, p) && Sound(c, e) && Sound(c, x) && Known(c, e, x)
    requires c.exclusive.Some? ==> c.shared == {}
    ensures Known(Advanced(c, p), e, x)
  {
    hide Gone;
    GoneKnown(c, p, e, x);
  }

  lemma EvictorStaysSound(c: Cache, p: nat)
    requires p in c.processes && c.processes[p].Evicts() && Sound(c, p)
    ensures Sound(Advanced(c, p), p)
  {
    hide Gone;
    GoneSound(c, p, p);
  }

  lemma ReaderKeepsOthersSound(c: Cache, p: nat, x: nat)
    requires p in c.processes && c.processes[p].Evicts() && !c.processes[p].Reaps() && p != x && Sound(c, p) && Sound(c, x) && Known(c, p, x)
    ensures Sound(Advanced(c, p), x)
  {
    hide Gone;
    GoneSound(c, p, x);
  }

  lemma ReaperKeepsOthersSound(c: Cache, p: nat, x: nat)
    requires p in c.processes && c.processes[p].Reaps() && p != x && Sound(c, p) && Sound(c, x) && Known(c, p, x)
    ensures Sound(Advanced(c, p), x)
  {
    hide Gone;
    GoneSound(c, p, x);
  }

  lemma ReaderKeepsKnown(c: Cache, p: nat, x: nat)
    requires p in c.processes && c.processes[p].Evicts() && !c.processes[p].Reaps() && Sound(c, p) && Sound(c, x) && Known(c, p, x)
    requires c.exclusive.Some? ==> c.shared == {}
    ensures Known(Advanced(c, p), p, x)
  {
    hide Gone;
    GoneKnown(c, p, p, x);
  }

  lemma ReaperKeepsKnown(c: Cache, p: nat, x: nat)
    requires p in c.processes && c.processes[p].Reaps() && Sound(c, p) && Sound(c, x) && Known(c, p, x)
    requires c.exclusive.Some? ==> c.shared == {}
    ensures Known(Advanced(c, p), p, x)
  {
    hide Gone;
    GoneKnown(c, p, p, x);
  }

  /** There is only one evictor, so what another process knows is nothing. */
  lemma OneEvictor(c: Cache, p: nat, e: nat, x: nat)
    requires p in c.processes && c.processes[p].Evicts() && e != p && Sound(c, p) && Sound(c, e)
    ensures Known(Advanced(c, p), e, x)
  {
    hide PinList, WithLockFile;
  }

  /** Whatever process `p` does next, each process `x` stays sound. */
  lemma AdvanceSound(c: Cache, p: nat, x: nat)
    requires p in c.processes && Sound(c, p) && Sound(c, x) && Known(c, p, x)
    ensures Sound(Advanced(c, p), x)
  {
    hide Sound, Known, Advanced;
    var q := c.processes[p];
    if x == p {
      if q.Evicts() { EvictorStaysSound(c, p); } else { HolderStaysSound(c, p); }
    } else if q.Reaps() {
      ReaperKeepsOthersSound(c, p, x);
    } else if q.Evicts() {
      ReaderKeepsOthersSound(c, p, x);
    } else {
      HolderKeepsOthersSound(c, p, x);
    }
  }

  /** Nor does an evictor `e` lose what it knows of `x`. */
  lemma AdvanceKnown(c: Cache, p: nat, e: nat, x: nat)
    requires p in c.processes && Sound(c, p) && Sound(c, e) && Sound(c, x) && Known(c, e, x)
    requires c.exclusive.Some? ==> c.shared == {}
    ensures Known(Advanced(c, p), e, x)
  {
    hide Sound, Known, Advanced;
    var q := c.processes[p];
    if !q.Evicts() {
      HolderKeepsKnown(c, p, e, x);
    } else if e != p {
      OneEvictor(c, p, e, x);
    } else if q.Reaps() {
      ReaperKeepsKnown(c, p, x);
    } else {
      ReaderKeepsKnown(c, p, x);
    }
  }

  lemma StaysSound(c: Cache, step: Step, x: nat)
    requires Enabled(c, step) && !step.Advance? && Sound(c, x)
    requires !step.Put? ==> Sound(c, step.p) && Known(c, step.p, x)
    ensures Sound(Apply(c, step), x)
  {
    hide Gone;
    if step.Crash? { GoneSound(c, step.p, x); }
  }

  lemma StaysKnown(c: Cache, step: Step, e: nat, x: nat)
    requires Enabled(c, step) && !step.Advance? && Known(c, e, x) && Sound(c, e) && Sound(c, x)
    requires !step.Put? ==> Sound(c, step.p)
    requires c.exclusive.Some? ==> c.shared == {}
    ensures Known(Apply(c, step), e, x)
  {
    hide Gone;
    if step.Crash? { GoneKnown(c, step.p, e, x); }
  }

  lemma LocksExclude(c: Cache, step: Step)
    requires Enabled(c, step) && (c.exclusive.Some? ==> c.shared == {}) && (!step.Put? ==> Sound(c, step.p))
    ensures Apply(c, step).exclusive.Some? ==> Apply(c, step).shared == {}
  {
  }

  lemma StepKeepsInv(c: Cache, step: Step)
    requires Inv(c) && Enabled(c, step)
    ensures Inv(Apply(c, step))
  {
    hide Sound, Known, Advanced, Gone;
    assert !step.Put? ==> Sound(c, step.p);
    LocksExclude(c, step);
    var r := Apply(c, step);
    forall x ensures Sound(r, x) {
      assert Sound(c, x) && (!step.Put? ==> Known(c, step.p, x));
      if step.Advance? { AdvanceSound(c, step.p, x); } else { StaysSound(c, step, x); }
    }
    forall e, x ensures Known(r, e, x) {
      assert Known(c, e, x) && Sound(c, e) && Sound(c, x);
      if step.Advance? { AdvanceKnown(c, step.p, e, x); } else { StaysKnown(c, step, e, x); }
    }
  }

  // ---- Whole runs ----

  ghost predicate StepAt(run: seq<Cache>, steps: seq<Step>, i: nat)
    requires |run| == |steps| + 1
  {
    i < |steps| ==> Enabled(run[i], steps[i]) && run[i + 1] == Apply(run[i], steps[i])
  }

  /** Any processes, any interleaving, from a cache directory left by whatever happened before. */
  ghost predicate IsRun(run: seq<Cache>, steps: seq<Step>) {
    && |run| == |steps| + 1
    && run[0].processes == map[] && run[0].owners == map[] && run[0].shared == {} && run[0].exclusive.None?
    && forall i :: StepAt(run, steps, i)
  }

  lemma {:induction false} InvThroughout(run: seq<Cache>, steps: seq<Step>, i: nat)
    requires IsRun(run, steps) && i < |run|
    ensures Inv(run[i])
  {
    if i > 0 {
      InvThroughout(run, steps, i - 1);
      assert StepAt(run, steps, i - 1);
      StepKeepsInv(run[i - 1], steps[i - 1]);
    }
  }

  /** A pin once confirmed stays confirmed. */
  lemma ConfirmedStays(c: Cache, step: Step, p: nat)
    requires Enabled(c, step) && p in c.processes && c.processes[p].Holds()
    requires p in Apply(c, step).processes && Apply(c, step).processes[p].Holds()
    ensures c.processes[p].confirmed <= Apply(c, step).processes[p].confirmed
  {
    hide Advanced, Gone;
    if step.Advance? {
      if step.p == p { AdvanceConfirms(c, p); } else { AdvanceSpares(c, step.p, p); }
    } else if step.Crash? {
      CrashConfirms(c, step.p, p);
    }
  }

  lemma CrashConfirms(c: Cache, q: nat, p: nat)
    requires p in c.processes
    ensures p in Gone(c, q).processes ==> Gone(c, q).processes[p] == c.processes[p]
  {
  }

  lemma AdvanceSpares(c: Cache, q: nat, p: nat)
    requires q in c.processes && p in c.processes && p != q
    ensures p in Advanced(c, q).processes ==> Advanced(c, q).processes[p] == c.processes[p]
  {
    hide Advanced;
    if c.processes[q].Evicts() { EvictorSpares(c, q, p); } else { HolderSpares(c, q, p); }
  }

  lemma EvictorSpares(c: Cache, q: nat, p: nat)
    requires q in c.processes && p in c.processes && p != q && c.processes[q].Evicts()
    ensures p in Advanced(c, q).processes ==> Advanced(c, q).processes[p] == c.processes[p]
  {
  }

  lemma HolderSpares(c: Cache, q: nat, p: nat)
    requires q in c.processes && p in c.processes && p != q && !c.processes[q].Evicts()
    ensures p in Advanced(c, q).processes ==> Advanced(c, q).processes[p] == c.processes[p]
  {
  }

  lemma AdvanceConfirms(c: Cache, p: nat)
    requires p in c.processes && c.processes[p].Holds()
    requires p in Advanced(c, p).processes && Advanced(c, p).processes[p].Holds()
    ensures c.processes[p].confirmed <= Advanced(c, p).processes[p].confirmed
  {
  }

  ghost predicate HoldsAt(run: seq<Cache>, p: nat, k: nat) {
    k < |run| && p in run[k].processes && run[k].processes[p].Holds()
  }

  /** Once `add` reported a blob pinned and stored, the blob is there as long as the holder lives. */
  lemma {:induction false} PinnedBlobsStay(run: seq<Cache>, steps: seq<Step>, p: nat, digest: Digest, i: nat, j: nat)
    requires IsRun(run, steps) && i <= j < |run| && forall k: nat :: i <= k <= j ==> HoldsAt(run, p, k)
    requires HoldsAt(run, p, i) && digest in run[i].processes[p].confirmed
    ensures HoldsAt(run, p, j) && digest in run[j].processes[p].confirmed
    ensures digest in run[j].blobs
  {
    assert HoldsAt(run, p, j);
    InvThroughout(run, steps, j);
    assert Sound(run[j], p);
    if i < j {
      assert HoldsAt(run, p, j - 1);
      PinnedBlobsStay(run, steps, p, digest, i, j - 1);
      assert StepAt(run, steps, j - 1);
      ConfirmedStays(run[j - 1], steps[j - 1], p);
    }
  }

  /** No two live holders share an id. */
  lemma HoldersAreDistinct(run: seq<Cache>, steps: seq<Step>, i: nat, p: nat, q: nat)
    requires IsRun(run, steps) && i < |run| && p in run[i].processes && q in run[i].processes && p != q
    requires run[i].processes[p].Holds() && run[i].processes[q].Holds()
    ensures run[i].processes[p].id != run[i].processes[q].id
  {
    InvThroughout(run, steps, i);
    PathOwnerIsUnique(run[i], p, q);
  }

  // ---- What undisturbed processes achieve ----

  /** A holder that finds its lock file free and in place lives two steps later, and holds nothing yet. */
  lemma OpeningSucceeds(c: Cache, p: nat)
    requires p in c.processes && c.processes[p].Opened?
    requires var q := c.processes[p]; q.inode !in c.owners && q.id in c.lockFiles && c.lockFiles[q.id] == q.inode
    ensures p in Advanced(c, p).processes && p in Advanced(Advanced(c, p), p).processes
    ensures Advanced(Advanced(c, p), p).processes[p] == Live(c.processes[p].id, c.processes[p].inode, {}, {})
  {
  }

  /** Adding a pin lists the digest, and confirms it if and only if the blob is there when it looks. */
  lemma AddingListsAndConfirms(c: Cache, p: nat)
    requires p in c.processes && c.processes[p].Adding?
    ensures p in Advanced(c, p).processes && p in Advanced(Advanced(c, p), p).processes
    ensures var q, r := c.processes[p], Advanced(Advanced(c, p), p);
            && r.processes[p].Live? && r.processes[p].digests == q.digests + {q.adding}
            && (q.adding in r.processes[p].confirmed <==> q.adding in q.confirmed || q.adding in c.blobs)
            && (q.adding !in q.digests ==> PinList(r, q.id) == q.digests + {q.adding})
            && p !in r.shared
  {
    hide Gone, WithLockFile;
  }

  lemma ProbeTakesLock(c: Cache, p: nat)
    requires p in c.processes && c.processes[p].Probing? && c.processes[p].inode !in c.owners
    ensures var q := c.processes[p];
            Advanced(c, p) == At(c.(owners := c.owners[q.inode := p]), p, Owning(q.scan, q.id, q.inode))
  {
  }

  lemma OwnerClaims(c: Cache, p: nat)
    requires p in c.processes && c.processes[p].Owning?
    requires c.processes[p].id in c.lockFiles && c.lockFiles[c.processes[p].id] == c.processes[p].inode
    ensures Advanced(c, p) == At(c, p, Claiming(c.processes[p].scan, c.processes[p].id, c.processes[p].inode))
  {
  }

  lemma ClaimantDeletes(c: Cache, p: nat)
    requires p in c.processes && c.processes[p].Claiming?
    ensures var q := c.processes[p];
            var clearing := At(c.(pins := c.pins - {q.id}), p, Clearing(q.scan, q.id, q.inode));
            && Advanced(c, p) == clearing
            && Advanced(clearing, p) == At(clearing.(lockFiles := c.lockFiles - {q.id}), p, Cleared(q.scan, q.id, q.inode))
  {
  }

  lemma ClearedLetsGo(c: Cache, p: nat)
    requires p in c.processes && c.processes[p].Cleared?
    ensures var q := c.processes[p];
            Advanced(c, p) == At(Unlock(c, q.inode), p, Reading(q.scan.(locks := q.scan.locks - {q.id})))
  {
  }

  /** Each cache is the one before after the next system call of process `p`. */
  ghost predicate Alone(p: nat, run: seq<Cache>) {
    forall i :: 0 <= i < |run| - 1 ==> p in run[i].processes && run[i + 1] == Advanced(run[i], p)
  }

  /** An evictor that probes the lock file of a holder that is gone takes it over and deletes what the holder left, and
      nothing else. */
  lemma DeadHolderIsReaped(c: Cache, p: nat) returns (run: seq<Cache>)
    requires p in c.processes && c.processes[p].Probing?
    requires var q := c.processes[p]; q.inode !in c.owners && q.id in c.lockFiles && c.lockFiles[q.id] == q.inode
    ensures |run| == 6 && run[0] == c && Alone(p, run)
    ensures var q := c.processes[p];
            run[5] == c.(processes := c.processes[p := Reading(q.scan.(locks := q.scan.locks - {q.id}))],
                         pins := c.pins - {q.id}, lockFiles := c.lockFiles - {q.id}, owners := run[5].owners)
            && run[5].owners == c.owners
  {
    hide Advanced;
    var q := c.processes[p];
    var owning := Advanced(c, p);
    ProbeTakesLock(c, p);
    var claiming := Advanced(owning, p);
    OwnerClaims(owning, p);
    var clearing := Advanced(claiming, p);
    ClaimantDeletes(claiming, p);
    var cleared := Advanced(clearing, p);
    var after := Advanced(cleared, p);
    ClearedLetsGo(cleared, p);
    run := [c, owning, claiming, clearing, cleared, after];
    assert c.owners[q.inode := p] - {q.inode} == c.owners;
    assert after.processes == c.processes[p := Reading(q.scan.(locks := q.scan.locks - {q.id}))];
  }

  /** At step `j` evictor `e`, whose probe of a lock file found it taken, reads the list of that holder, and `digest` is on it. */
  ghost predicate ReadAt(run: seq<Cache>, steps: seq<Step>, j: nat, e: nat, digest: Digest) {
    && j < |steps| && j < |run| && steps[j] == Advance(e) && e in run[j].processes && run[j].processes[e].Contended?
    && digest in PinList(run[j], run[j].processes[e].id)
  }

  /** The digests an evictor has found pinned so far. */
  function PinnedSoFar(q: Process): set<Digest> {
    if q.Scans() then q.scan.pinned else if q.Deleting? then q.pinned else {}
  }

  lemma AdvanceReads(c: Cache, e: nat, digest: Digest)
    requires e in c.processes && e in Advanced(c, e).processes && digest in PinnedSoFar(Advanced(c, e).processes[e])
    ensures digest in PinnedSoFar(c.processes[e]) || (c.processes[e].Contended? && digest in PinList(c, c.processes[e].id))
  {
    hide Advanced;
    if !c.processes[e].Evicts() {
      HolderReadsNothing(c, e);
    } else if c.processes[e].Reaps() {
      ReaperReadsNothing(c, e);
    } else {
      ReaderReads(c, e, digest);
    }
  }

  lemma HolderReadsNothing(c: Cache, e: nat)
    requires e in c.processes && !c.processes[e].Evicts()
    ensures e in Advanced(c, e).processes ==> PinnedSoFar(Advanced(c, e).processes[e]) == {}
  {
    hide Gone, WithLockFile;
    assert e !in Gone(c, e).processes by { EndedIsGone(c, e); }
  }

  lemma EndedIsGone(c: Cache, e: nat)
    ensures Gone(c, e).processes == c.processes - {e}
  {
  }

  lemma ReaperReadsNothing(c: Cache, e: nat)
    requires e in c.processes && c.processes[e].Reaps()
    ensures e in Advanced(c, e).processes && PinnedSoFar(Advanced(c, e).processes[e]) == PinnedSoFar(c.processes[e])
  {
    hide Gone, WithLockFile, PinList;
  }

  lemma ReaderReads(c: Cache, e: nat, digest: Digest)
    requires e in c.processes && c.processes[e].Evicts() && !c.processes[e].Reaps()
    requires e in Advanced(c, e).processes && digest in PinnedSoFar(Advanced(c, e).processes[e])
    ensures digest in PinnedSoFar(c.processes[e]) || (c.processes[e].Contended? && digest in PinList(c, c.processes[e].id))
  {
    hide Gone, WithLockFile, PinList;
  }

  lemma OthersRead(c: Cache, step: Step, e: nat)
    requires Enabled(c, step) && step != Advance(e) && e in Apply(c, step).processes
    ensures e in c.processes ==> PinnedSoFar(Apply(c, step).processes[e]) == PinnedSoFar(c.processes[e])
    ensures e !in c.processes ==> PinnedSoFar(Apply(c, step).processes[e]) == {}
  {
    hide PinList, Advanced, Gone;
    if step.Advance? { AdvanceLeaves(c, step.p, e); }
    if step.Crash? { CrashLeaves(c, step.p, e); }
  }

  lemma AdvanceLeaves(c: Cache, q: nat, p: nat)
    requires q in c.processes && p != q && p in Advanced(c, q).processes
    ensures p in c.processes && Advanced(c, q).processes[p] == c.processes[p]
  {
    hide Advanced;
    if c.processes[q].Evicts() { EvictorLeaves(c, q, p); } else { HolderLeaves(c, q, p); }
    AdvanceSpares(c, q, p);
  }

  lemma EvictorLeaves(c: Cache, q: nat, p: nat)
    requires q in c.processes && p != q && p in Advanced(c, q).processes && c.processes[q].Evicts()
    ensures p in c.processes
  {
    hide Gone, WithLockFile, PinList;
  }

  lemma HolderLeaves(c: Cache, q: nat, p: nat)
    requires q in c.processes && p != q && p in Advanced(c, q).processes && !c.processes[q].Evicts()
    ensures p in c.processes
  {
    hide Gone, WithLockFile;
    EndedIsGone(c, q);
    LockFileKeeps(c, q);
  }

  lemma LockFileKeeps(c: Cache, q: nat)
    ensures forall inode, id :: WithLockFile(Unlock(c, inode), id).processes == c.processes
  {
  }

  lemma CrashLeaves(c: Cache, q: nat, p: nat)
    requires p in Gone(c, q).processes
    ensures p in c.processes && Gone(c, q).processes[p] == c.processes[p]
  {
  }

  /** Eviction spares nothing else: what an evictor takes for pinned it read on the list of a holder whose lock was taken. */
  lemma {:induction false} PinnedWasRead(run: seq<Cache>, steps: seq<Step>, i: nat, e: nat, digest: Digest) returns (j: nat)
    requires IsRun(run, steps) && i < |run| && e in run[i].processes && digest in PinnedSoFar(run[i].processes[e])
    ensures j < i && ReadAt(run, steps, j, e, digest)
  {
    j := i - 1;
    assert StepAt(run, steps, j);
    hide Advanced, PinnedSoFar;
    if steps[j] == Advance(e) { AdvanceReads(run[j], e, digest); } else { OthersRead(run[j], steps[j], e); }
    if !(e in run[j].processes && digest in PinnedSoFar(run[j].processes[e])) {
      return;
    }
    hide Apply;
    j := PinnedWasRead(run, steps, j, e, digest);
  }

  /** What an evictor is about to remove is listed by no holder. */
  lemma RemovalsSpareThePinned(run: seq<Cache>, steps: seq<Step>, i: nat, e: nat, digest: Digest, p: nat)
    requires IsRun(run, steps) && i < |steps| && steps[i] == RemoveBlob(e, digest)
    requires p in run[i].processes && run[i].processes[p].Holds()
    ensures digest !in run[i].processes[p].digests
  {
    InvThroughout(run, steps, i);
    assert StepAt(run, steps, i) && Known(run[i], e, p);
  }
}
