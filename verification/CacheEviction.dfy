/** Which blobs eviction deletes, and how much is left (cas_eviction.cpp, cas_release.cpp). */
module CacheEviction {
  import opened Sorting
  import opened ReadyQueues

  type Digest = string

  datatype Entry = Entry(digest: Digest, bytes: nat, lastUsed: int)

  datatype Report = Report(evictedBlobs: nat, evictedBytes: nat, pinnedBlobsKept: nat, remainingBytes: nat)

  /** Oldest first; the digest breaks ties. */
  predicate OlderThan(a: Entry, b: Entry) {
    a.lastUsed < b.lastUsed || (a.lastUsed == b.lastUsed && LexBefore(CharLess(), a.digest, b.digest))
  }

  function Age(): (Entry, Entry) -> bool { (a, b) => OlderThan(a, b) }

  ghost predicate DistinctDigests(entries: set<Entry>) {
    forall a, b :: a in entries && b in entries && a.digest == b.digest ==> a == b
  }

  lemma AgeIsLinear(entries: set<Entry>)
    requires DistinctDigests(entries)
    ensures Linear(Age(), entries)
  {
    forall x, y, z | x in entries && y in entries && z in entries
      ensures !Age()(x, x)
      ensures x != y ==> Age()(x, y) || Age()(y, x)
      ensures Age()(x, y) && Age()(y, z) ==> Age()(x, z)
    {
      LexTotal(CharLess(), x.digest, y.digest);
      LexTotal(CharLess(), x.digest, x.digest);
      if LexBefore(CharLess(), x.digest, y.digest) && LexBefore(CharLess(), y.digest, z.digest) {
        LexTransitive(CharLess(), x.digest, y.digest, z.digest);
      }
    }
  }

  function Sum(entries: seq<Entry>): nat {
    if entries == [] then 0 else Sum(entries[..|entries| - 1]) + entries[|entries| - 1].bytes
  }

  /** The entries eviction can delete, in the order given: those not to be kept. */
  function Removable(entries: seq<Entry>, kept: set<Digest>): seq<Entry> {
    if entries == [] then []
    else
      var n := |entries| - 1;
      if entries[n].digest in kept then Removable(entries[..n], kept) else Removable(entries[..n], kept) + [entries[n]]
  }

  function Staying(entries: seq<Entry>, kept: set<Digest>): seq<Entry> {
    if entries == [] then []
    else
      var n := |entries| - 1;
      if entries[n].digest in kept then Staying(entries[..n], kept) + [entries[n]] else Staying(entries[..n], kept)
  }

  lemma {:induction false} SumSplits(entries: seq<Entry>, kept: set<Digest>)
    ensures Sum(entries) == Sum(Removable(entries, kept)) + Sum(Staying(entries, kept))
  {
    if entries != [] {
      var n := |entries| - 1;
      SumSplits(entries[..n], kept);
      SumSnoc(Removable(entries[..n], kept), entries[n]);
      SumSnoc(Staying(entries[..n], kept), entries[n]);
    }
  }

  lemma SumSnoc(entries: seq<Entry>, e: Entry)
    ensures Sum(entries + [e]) == Sum(entries) + e.bytes
  {
    assert (entries + [e])[..|entries|] == entries;
  }

  lemma {:induction false} SumGrows(entries: seq<Entry>, i: nat)
    requires i <= |entries|
    ensures Sum(entries[..i]) <= Sum(entries)
  {
    if i < |entries| {
      assert entries[..|entries| - 1][..i] == entries[..i];
      SumGrows(entries[..|entries| - 1], i);
    } else {
      assert entries[..i] == entries;
    }
  }

  lemma SumPrefix(entries: seq<Entry>, i: nat, j: nat)
    requires i <= j <= |entries|
    ensures Sum(entries[..i]) <= Sum(entries[..j])
  {
    assert entries[..j][..i] == entries[..i];
    SumGrows(entries[..j], i);
  }

  lemma {:induction false} RemovablePrefix(entries: seq<Entry>, kept: set<Digest>, i: nat)
    requires i <= |entries|
    ensures Removable(entries[..i], kept) <= Removable(entries, kept)
  {
    if i < |entries| {
      assert entries[..|entries| - 1][..i] == entries[..i];
      RemovablePrefix(entries[..|entries| - 1], kept, i);
    } else {
      assert entries[..i] == entries;
    }
  }

  /** Removing the first `k` removable entries is the least that brings the total within the limit, or all
      that is possible. */
  predicate Least(oldestFirst: seq<Entry>, kept: set<Digest>, maxBytes: nat, k: nat) {
    var removable := Removable(oldestFirst, kept);
    && k <= |removable|
    && (k == |removable| || Sum(oldestFirst) - Sum(removable[..k]) <= maxBytes)
    && (k > 0 ==> Sum(oldestFirst) - Sum(removable[..k - 1]) > maxBytes)
  }

  /** Above the limit only when the blobs to keep exceed it by themselves. */
  lemma AboveLimitOnlyIfKept(oldestFirst: seq<Entry>, kept: set<Digest>, maxBytes: nat, k: nat)
    requires Least(oldestFirst, kept, maxBytes, k)
    requires Sum(oldestFirst) - Sum(Removable(oldestFirst, kept)[..k]) > maxBytes
    ensures Sum(oldestFirst) - Sum(Removable(oldestFirst, kept)[..k]) == Sum(Staying(oldestFirst, kept))
  {
    var removable := Removable(oldestFirst, kept);
    assert removable[..|removable|] == removable;
    SumSplits(oldestFirst, kept);
  }

  /** A blob that goes was last used no later than one that could go and stays, and at the same time only if the digests
      decide for it where they first part. */
  ghost predicate UsedBefore(a: Entry, b: Entry) {
    a.lastUsed < b.lastUsed || (a.lastUsed == b.lastUsed && exists n :: PartAt(CharLess(), a.digest, b.digest, n))
  }

  lemma {:induction false} RemovableInOrder(entries: seq<Entry>, kept: set<Digest>)
    requires Increasing(Age(), entries)
    ensures Increasing(Age(), Removable(entries, kept))
    ensures forall e :: e in Removable(entries, kept) <==> e in entries && e.digest !in kept
  {
    if entries != [] {
      var n := |entries| - 1;
      RemovableInOrder(entries[..n], kept);
      assert forall e :: e in entries <==> e in entries[..n] || e == entries[n];
      forall e | e in entries[..n] ensures Age()(e, entries[n]) {
        var i :| 0 <= i < n && entries[i] == e;
      }
      hide OlderThan;
    }
  }

  /** Eviction goes by last use. */
  lemma OldestGoFirst(entries: seq<Entry>, kept: set<Digest>, k: nat, a: Entry, b: Entry)
    requires Increasing(Age(), entries) && k <= |Removable(entries, kept)|
    requires a in Removable(entries, kept)[..k]
    requires b in entries && b.digest !in kept && b !in Removable(entries, kept)[..k]
    ensures UsedBefore(a, b)
  {
    RemovableInOrder(entries, kept);
    var removable := Removable(entries, kept);
    assert b in removable && removable == removable[..k] + removable[k..];
    var i :| 0 <= i < k && removable[..k][i] == a;
    var j :| 0 <= j < |removable| - k && removable[k..][j] == b;
    assert Age()(removable[i], removable[k + j]);
    LexMeans(CharLess(), a.digest, b.digest);
  }

  /** Only one number of removals is the least. */
  lemma LeastIsUnique(oldestFirst: seq<Entry>, kept: set<Digest>, maxBytes: nat, j: nat, k: nat)
    requires Least(oldestFirst, kept, maxBytes, j) && Least(oldestFirst, kept, maxBytes, k)
    ensures j == k
  {
    var removable := Removable(oldestFirst, kept);
    if j < k { SumPrefix(removable, j, k - 1); }
    if k < j { SumPrefix(removable, k, j - 1); }
  }

  function EvictedDigests(oldestFirst: seq<Entry>, kept: set<Digest>, k: nat): set<Digest>
    requires k <= |Removable(oldestFirst, kept)|
  {
    set e | e in Removable(oldestFirst, kept)[..k] :: e.digest
  }

  /** The report once the first `i` entries were looked at. */
  ghost predicate EvictedSoFar(entries: seq<Entry>, kept: set<Digest>, maxBytes: nat, i: nat, report: Report) {
    && i <= |entries|
    && report.evictedBlobs == |Removable(entries[..i], kept)| <= |Removable(entries, kept)|
    && report.evictedBytes == Sum(Removable(entries, kept)[..report.evictedBlobs])
    && report.evictedBytes + report.remainingBytes == Sum(entries)
    && (report.evictedBlobs > 0 ==> Sum(entries) - Sum(Removable(entries, kept)[..report.evictedBlobs - 1]) > maxBytes)
    && StillAbove(entries, kept, maxBytes, i)
  }

  /** Before the last of the first `i` entries was looked at, the total was above the limit. */
  ghost predicate StillAbove(entries: seq<Entry>, kept: set<Digest>, maxBytes: nat, i: nat) {
    0 < i <= |entries| ==> Sum(entries) - Sum(Removable(entries[..i - 1], kept)) > maxBytes
  }

  lemma StopsOnce(entries: seq<Entry>, kept: set<Digest>, maxBytes: nat, i: nat, j: nat)
    requires i < j <= |entries| && StillAbove(entries, kept, maxBytes, j)
    ensures Sum(entries) - Sum(Removable(entries[..i], kept)) > maxBytes
  {
    var before, now := Removable(entries[..i], kept), Removable(entries[..j - 1], kept);
    assert entries[..j - 1][..i] == entries[..i];
    RemovablePrefix(entries[..j - 1], kept, i);
    assert now[..|before|] == before;
    SumGrows(now, |before|);
  }

  /** So there is only one point where eviction stops. */
  lemma StopIsUnique(entries: seq<Entry>, kept: set<Digest>, maxBytes: nat, i: nat, j: nat)
    requires i <= |entries| && StillAbove(entries, kept, maxBytes, i)
    requires j <= |entries| && StillAbove(entries, kept, maxBytes, j)
    requires i == |entries| || Sum(entries) - Sum(Removable(entries[..i], kept)) <= maxBytes
    requires j == |entries| || Sum(entries) - Sum(Removable(entries[..j], kept)) <= maxBytes
    ensures i == j
  {
    if i < j { StopsOnce(entries, kept, maxBytes, i, j); }
    if j < i { StopsOnce(entries, kept, maxBytes, j, i); }
  }

  lemma NothingEvicted(entries: seq<Entry>, kept: set<Digest>, maxBytes: nat)
    ensures EvictedSoFar(entries, kept, maxBytes, 0, Report(0, 0, 0, Sum(entries)))
    ensures EvictedDigests(entries, kept, 0) == {}
  {
    assert entries[..0] == [] && Removable(entries, kept)[..0] == [];
  }

  lemma NothingStays(entries: seq<Entry>, pinned: set<Digest>)
    ensures |Staying(entries[..0], pinned)| == 0
  {
  }

  lemma NextEntry(entries: seq<Entry>, kept: set<Digest>, i: nat)
    requires i < |entries|
    ensures Removable(entries[..i + 1], kept) ==
            if entries[i].digest in kept then Removable(entries[..i], kept) else Removable(entries[..i], kept) + [entries[i]]
    ensures Staying(entries[..i + 1], kept) ==
            if entries[i].digest in kept then Staying(entries[..i], kept) + [entries[i]] else Staying(entries[..i], kept)
    ensures Removable(entries[..i], kept) <= Removable(entries, kept)
    ensures Removable(entries[..i + 1], kept) <= Removable(entries, kept)
  {
    assert entries[..i + 1][..i] == entries[..i];
    RemovablePrefix(entries, kept, i);
    RemovablePrefix(entries, kept, i + 1);
  }

  lemma KeepNext(entries: seq<Entry>, kept: set<Digest>, maxBytes: nat, i: nat, report: Report, pinnedBlobsKept: nat)
    requires i < |entries| && EvictedSoFar(entries, kept, maxBytes, i, report) && entries[i].digest in kept
    requires report.remainingBytes > maxBytes
    ensures EvictedSoFar(entries, kept, maxBytes, i + 1, report.(pinnedBlobsKept := pinnedBlobsKept))
  {
    hide Removable, Staying, Sum;
    NextEntry(entries, kept, i);
    assert Removable(entries, kept)[..report.evictedBlobs] == Removable(entries[..i], kept);
  }

  lemma EvictNext(entries: seq<Entry>, kept: set<Digest>, maxBytes: nat, i: nat, report: Report)
    requires i < |entries| && EvictedSoFar(entries, kept, maxBytes, i, report) && report.remainingBytes > maxBytes
    requires entries[i].digest !in kept
    ensures var e, k := entries[i], report.evictedBlobs;
            && e.bytes <= report.remainingBytes
            && k < |Removable(entries, kept)|
            && EvictedDigests(entries, kept, k + 1) == EvictedDigests(entries, kept, k) + {e.digest}
            && EvictedSoFar(entries, kept, maxBytes, i + 1,
                            report.(evictedBlobs := k + 1, evictedBytes := report.evictedBytes + e.bytes,
                                    remainingBytes := report.remainingBytes - e.bytes))
  {
    hide Removable, Staying, Sum;
    var e, k, removable := entries[i], report.evictedBlobs, Removable(entries, kept);
    NextEntry(entries, kept, i);
    assert removable[..k] == Removable(entries[..i], kept);
    assert removable[..k + 1] == removable[..k] + [e];
    SumSnoc(removable[..k], e);
    SumSplits(entries, kept);
    SumGrows(removable, k + 1);
    SameDigests(removable[..k], e);
  }

  lemma SameDigests(entries: seq<Entry>, e: Entry)
    ensures (set x | x in entries + [e] :: x.digest) == (set x | x in entries :: x.digest) + {e.digest}
  {
    assert e in entries + [e];
    assert forall x :: x in entries ==> x in entries + [e];
  }

  lemma EvictionDone(entries: seq<Entry>, kept: set<Digest>, maxBytes: nat, i: nat, report: Report)
    requires EvictedSoFar(entries, kept, maxBytes, i, report) && (i == |entries| || report.remainingBytes <= maxBytes)
    ensures Least(entries, kept, maxBytes, report.evictedBlobs)
  {
    assert entries[..|entries|] == entries;
  }

  // ---- The bytes of a store ----

  /** The bytes of all blobs together. */
  ghost function Bytes(blobs: map<Digest, Entry>): nat
    decreases |blobs|
  {
    if blobs == map[] then 0
    else
      var d :| d in blobs;
      assert |blobs - {d}| < |blobs| by { assert blobs == (blobs - {d})[d := blobs[d]]; }
      blobs[d].bytes + Bytes(blobs - {d})
  }

  lemma {:induction false} BytesWithout(blobs: map<Digest, Entry>, d: Digest)
    requires d in blobs
    ensures Bytes(blobs) == blobs[d].bytes + Bytes(blobs - {d})
    decreases |blobs|
  {
    var e :| e in blobs && Bytes(blobs) == blobs[e].bytes + Bytes(blobs - {e});
    if e != d {
      Fewer(blobs, d);
      Fewer(blobs, e);
      BytesWithout(blobs - {e}, d);
      BytesWithout(blobs - {d}, e);
      assert blobs - {e} - {d} == blobs - {d} - {e};
    }
  }

  lemma Fewer(blobs: map<Digest, Entry>, d: Digest)
    requires d in blobs
    ensures |blobs - {d}| < |blobs|
  {
    assert blobs == (blobs - {d})[d := blobs[d]];
  }

  ghost predicate Keyed(blobs: map<Digest, Entry>) {
    forall d :: d in blobs ==> blobs[d].digest == d
  }

  ghost function EntriesOf(blobs: map<Digest, Entry>): set<Entry> {
    set d | d in blobs :: blobs[d]
  }

  lemma LastListed(blobs: map<Digest, Entry>, entries: seq<Entry>)
    requires Keyed(blobs) && Members(entries) == EntriesOf(blobs) && Distinct(entries) && entries != []
    ensures var n := |entries| - 1;
            var d := entries[n].digest;
            && d in blobs && blobs[d] == entries[n] && Keyed(blobs - {d})
            && Members(entries[..n]) == EntriesOf(blobs - {d}) && Distinct(entries[..n])
  {
    var n := |entries| - 1;
    var last := entries[n];
    assert last in Members(entries);
    assert last.digest in blobs && blobs[last.digest] == last;
    assert entries == entries[..n] + [last] && last !in entries[..n];
    var rest := blobs - {last.digest};
    forall e ensures e in Members(entries[..n]) <==> e in EntriesOf(rest) {
      assert e in Members(entries) <==> e in entries[..n] || e == last;
      assert e in EntriesOf(blobs) <==> e.digest in blobs && blobs[e.digest] == e;
      assert e in EntriesOf(rest) <==> e.digest in rest && rest[e.digest] == e;
    }
  }

  /** Listing a store loses no byte. */
  lemma {:induction false} ListedBytes(blobs: map<Digest, Entry>, entries: seq<Entry>)
    requires Keyed(blobs) && Members(entries) == EntriesOf(blobs) && Distinct(entries)
    ensures Sum(entries) == Bytes(blobs)
  {
    if entries == [] {
      assert forall d :: d in blobs ==> blobs[d] in Members(entries);
      assert blobs == map[];
    } else {
      LastListed(blobs, entries);
      BytesWithout(blobs, entries[|entries| - 1].digest);
      ListedBytes(blobs - {entries[|entries| - 1].digest}, entries[..|entries| - 1]);
    }
  }

  /** From the `i`th on, the listed entries are in the store. */
  ghost predicate StillThere(blobs: map<Digest, Entry>, entries: seq<Entry>, i: nat) {
    && (forall k :: i <= k < |entries| ==> entries[k].digest in blobs && blobs[entries[k].digest] == entries[k])
    && (forall j, k :: 0 <= j < k < |entries| ==> entries[j].digest != entries[k].digest)
  }

  lemma AllThere(blobs: map<Digest, Entry>, entries: seq<Entry>)
    requires Keyed(blobs) && Members(entries) == EntriesOf(blobs) && Distinct(entries)
    ensures StillThere(blobs, entries, 0)
  {
    forall k | 0 <= k < |entries| ensures entries[k].digest in blobs && blobs[entries[k].digest] == entries[k] {
      assert entries[k] in Members(entries);
    }
  }

  lemma ByLastUse(before: map<Digest, Entry>, after: map<Digest, Entry>, entries: seq<Entry>, kept: set<Digest>, k: nat)
    requires Keyed(before) && Members(entries) == EntriesOf(before) && Increasing(Age(), entries)
    requires k <= |Removable(entries, kept)| && after == before - EvictedDigests(entries, kept, k)
    ensures forall a, b :: a in before && a !in after && b in after && b !in kept ==> UsedBefore(before[a], before[b])
  {
    var gone := Removable(entries, kept)[..k];
    forall a, b | a in before && a !in after && b in after && b !in kept ensures UsedBefore(before[a], before[b]) {
      RemovableInOrder(entries, kept);
      assert forall e :: e in gone ==> e in Removable(entries, kept);
      assert before[b] in Members(entries);
      var e :| e in gone && e.digest == a;
      assert e in Members(entries);
      hide Removable, UsedBefore;
      OldestGoFirst(entries, kept, k, before[a], before[b]);
    }
  }

  method Total(entries: seq<Entry>) returns (total: nat)
    ensures total == Sum(entries)
  {
    total := 0;
    for i := 0 to |entries|
      invariant total == Sum(entries[..i])
    {
      assert entries[..i + 1][..i] == entries[..i];
      total := total + entries[i].bytes;
    }
    assert entries[..|entries|] == entries;
  }

  datatype BlobRemoval = Removed | IsPinned | Absent | RemovalFailed

  /** The blobs of a cache directory. */
  class CasStore {
    var blobs: map<Digest, Entry>

    ghost predicate Valid()
      reads this
    {
      Keyed(blobs)
    }

    constructor (blobs: map<Digest, Entry>)
      requires Keyed(blobs)
      ensures Valid() && this.blobs == blobs
    {
      this.blobs := blobs;
    }

    /** The entries, oldest first. */
    method ListBlobs() returns (entries: seq<Entry>)
      requires Valid()
      ensures Members(entries) == EntriesOf(blobs) && Increasing(Age(), entries) && Distinct(entries)
    {
      var all := set d | d in blobs :: blobs[d];
      var left := all;
      entries := [];
      WalkStarts(all);
      while left != {}
        invariant Walk(all, left, entries)
        decreases |left|
      {
        var e :| e in left;
        WalkOn(all, left, entries, e);
        left := left - {e};
        entries := entries + [e];
      }
      WalkEnds(all, entries);
      AgeIsLinear(all);
      SortByIncreasing(Age(), entries, all);
      SortByMembers(Age(), entries);
      entries := SortBy(Age(), entries);
      IncreasingDistinct(Age(), entries, all);
    }

    /** Deletes the least of the least recently used unpinned blobs that brings the total within the limit. The
        removal of a blob among `stuck` fails and leaves it where it is. */
    method Evict(pinned: set<Digest>, stuck: set<Digest>, maxBytes: nat) returns (report: Report, ghost oldestFirst: seq<Entry>, ghost looked: nat)
      requires Valid()
      modifies this
      ensures Valid()
      ensures Members(oldestFirst) == EntriesOf(old(blobs)) && Distinct(oldestFirst) && Increasing(Age(), oldestFirst)
      ensures Least(oldestFirst, pinned + stuck, maxBytes, report.evictedBlobs)
      ensures blobs == old(blobs) - EvictedDigests(oldestFirst, pinned + stuck, report.evictedBlobs)
      ensures report.evictedBytes == Sum(Removable(oldestFirst, pinned + stuck)[..report.evictedBlobs])
      ensures report.evictedBytes + report.remainingBytes == Sum(oldestFirst) == Bytes(old(blobs))
      ensures report.remainingBytes == Bytes(blobs)
      ensures looked <= |oldestFirst| && StillAbove(oldestFirst, pinned + stuck, maxBytes, looked)
      ensures looked == |oldestFirst| || report.remainingBytes <= maxBytes
      ensures report.evictedBlobs == |Removable(oldestFirst[..looked], pinned + stuck)|
      ensures report.pinnedBlobsKept == |Staying(oldestFirst[..looked], pinned)|
      ensures forall a, b :: a in old(blobs) && a !in blobs && b in blobs && b !in pinned + stuck ==>
                UsedBefore(old(blobs)[a], old(blobs)[b])
    {
      hide Sum, Removable, Staying, EvictedDigests, Increasing, Distinct, EntriesOf, Members, StillAbove, Bytes;
      ghost var kept := pinned + stuck;
      var entries := ListBlobs();
      oldestFirst := entries;
      var total := Total(entries);
      report := Report(0, 0, 0, total);
      NothingEvicted(entries, kept, maxBytes);
      NothingStays(entries, pinned);
      ListedBytes(blobs, entries);
      AllThere(blobs, entries);
      var i := 0;
      while i < |entries| && report.remainingBytes > maxBytes
        invariant 0 <= i <= |entries| && Valid() && StillThere(blobs, entries, i)
        invariant EvictedSoFar(entries, kept, maxBytes, i, report)
        invariant report.pinnedBlobsKept == |Staying(entries[..i], pinned)|
        invariant blobs == old(blobs) - EvictedDigests(entries, kept, report.evictedBlobs)
        invariant report.remainingBytes == Bytes(blobs)
      {
        var e := entries[i];
        NextEntry(entries, pinned, i);
        if e.digest in pinned {
          KeepNext(entries, kept, maxBytes, i, report, report.pinnedBlobsKept + 1);
          report := report.(pinnedBlobsKept := report.pinnedBlobsKept + 1);
        } else if e.digest in stuck {
          KeepNext(entries, kept, maxBytes, i, report, report.pinnedBlobsKept);
        } else {
          EvictNext(entries, kept, maxBytes, i, report);
          BytesWithout(blobs, e.digest);
          blobs := blobs - {e.digest};
          report := report.(evictedBlobs := report.evictedBlobs + 1,
                            evictedBytes := report.evictedBytes + e.bytes,
                            remainingBytes := report.remainingBytes - e.bytes);
        }
        i := i + 1;
      }
      looked := i;
      EvictionDone(entries, kept, maxBytes, i, report);
      ByLastUse(old(blobs), blobs, entries, kept, report.evictedBlobs);
    }

    /** Deletes one blob unless it is pinned or its removal fails. */
    method RemoveUnpinned(digest: Digest, pinned: set<Digest>, stuck: set<Digest>) returns (r: BlobRemoval)
      requires Valid()
      modifies this
      ensures Valid()
      ensures r.IsPinned? <==> digest in pinned
      ensures r.Absent? <==> digest !in pinned && digest !in old(blobs)
      ensures r.RemovalFailed? <==> digest !in pinned && digest in old(blobs) && digest in stuck
      ensures blobs == if r.Removed? then old(blobs) - {digest} else old(blobs)
      ensures r.Removed? ==> digest !in pinned && Bytes(old(blobs)) == old(blobs)[digest].bytes + Bytes(blobs)
    {
      if digest in pinned {
        return IsPinned;
      }
      if digest !in blobs {
        return Absent;
      }
      if digest in stuck {
        return RemovalFailed;
      }
      BytesWithout(blobs, digest);
      blobs := blobs - {digest};
      return Removed;
    }
  }
}
