/** An object that a crash has left half removed, put or deleted again (put.go:53-66, delete.go:41-56). */
module Retries {
  import opened Bytes
  import opened Sums
  import opened Schemes
  import opened Manifests
  import opened Journals
  import opened Backends
  import opened Indexes
  import opened Holdings
  import opened Crashes
  import opened Durability
  import Collecting

  /** s holds one copy of c, its counts are exact, its journal ends in a whole record, and nothing is doomed. */
  ghost predicate Exact(s: DiskStore, c: bytes)
    reads s, s.blobs, s.refs, s.idx, s.journal
  {
    && s.Valid() && s.Roomy() && s.torn == [] && s.held.doomed == {}
    && s.held.contents[c] == 1 && CountsMatch(s.cfg.sc, s.held.contents, s.refs.counts)
    && forall id :: Count(s.refs.counts, id) + 2 * (|s.journal.file| + REC * |s.cfg.sc.Ids(c)|) + 2 * MAX_CHUNKS < TWO64
  }

  /** What a Delete of c leaves if it crashes with cut bytes of its records journalled, before its index is
      saved; its manifest may be gone once all of them are. */
  function CutShort(cfg: Config, d: Disk, c: bytes, cut: nat, gone: bool): Disk {
    var file := d.journal + Image(Changes(DEC, cfg.sc.Ids(c)), cfg.crc);
    d.(raws := if gone then d.raws - {cfg.sc.objectId(c)} else d.raws,
       journal := if |d.journal| + cut <= |file| then file[..|d.journal| + cut] else file)
  }

  ghost predicate CutPoint(cfg: Config, c: bytes, cut: nat, gone: bool) {
    cut <= REC * |cfg.sc.Ids(c)| && (gone ==> cut == REC * |cfg.sc.Ids(c)|)
  }

  /** It is one of the disks on the way of that Delete. */
  lemma OnTheWay(cfg: Config, d: Disk, c: bytes, cut: nat, gone: bool, index: map<Id, Record>, refs: Counts)
    requires CutPoint(cfg, c, cut, gone)
    ensures CutShort(cfg, d, c, cut, gone) in LastDisks(cfg, d, c, index, refs)
  {
    hide Image, Scheme.Ids, PersistDisks;
    var file := d.journal + Image(Changes(DEC, cfg.sc.Ids(c)), cfg.crc);
    var e := CutShort(cfg, d, c, cut, gone);
    ChangesLong(DEC, cfg.sc.Ids(c));
    if gone {
      assert file[..|file|] == file;
    } else {
      assert e == d.(journal := file[..|d.journal| + cut]);
      assert e in Torn(d, file);
    }
  }

  /** Replaying it makes the changes of the whole records it holds. */
  lemma CutReplays(cfg: Config, c: bytes, d: Disk, rs: seq<Rec>, cut: nat, gone: bool)
    requires CutPoint(cfg, c, cut, gone) && d.journal == Image(rs, cfg.crc)
    ensures Recovered(CutShort(cfg, d, c, cut, gone), cfg.crc)
         == ApplyAll(d.refs, rs + Changes(DEC, cfg.sc.Ids(c)[..cut / REC]))
  {
    hide Image, ApplyAll, Replay, Scheme.Ids, Changes;
    var ids, j := cfg.sc.Ids(c), cut / REC;
    var all := rs + Changes(DEC, ids);
    ChangesLong(DEC, ids);
    ImageAppend(rs, Changes(DEC, ids), cfg.crc);
    assert Image(all, cfg.crc)[..|Image(all, cfg.crc)|] == Image(all, cfg.crc);
    ReplayCut(d.refs, all, |d.journal| + cut, cfg.crc);
    assert (|d.journal| + cut) / REC == |rs| + j;
    FirstChanges(ids, j);
    assert all[..|rs| + j] == rs + Changes(DEC, ids[..j]);
  }

  /** The counts recovered from it: what the others need, and the references not taken back by then. */
  lemma CutCounts(cfg: Config, others: multiset<bytes>, c: bytes, d: Disk, rs: seq<Rec>, counts: Counts, cut: nat,
                  gone: bool)
    requires CutPoint(cfg, c, cut, gone) && c !in others && CountsMatch(cfg.sc, others + multiset{c}, counts)
    requires d.journal == Image(rs, cfg.crc) && ApplyAll(d.refs, rs) == Ok(counts)
    ensures var now := Recovered(CutShort(cfg, d, c, cut, gone), cfg.crc);
      now.Ok? && forall id ::
        Count(now.counts, id) == Total(Demand(cfg.sc, others))[id] + multiset(cfg.sc.Ids(c)[cut / REC..])[id]
    ensures forall id ::
              multiset(cfg.sc.Ids(c)[cut / REC..])[id] + Total(Demand(cfg.sc, others))[id] <= Count(counts, id)
  {
    hide Image, ApplyAll, Total, Demand, Scheme.Ids, Changes, Recovered, CutShort, CountsMatch, Count;
    var ids, j := cfg.sc.Ids(c), cut / REC;
    CutReplays(cfg, c, d, rs, cut, gone);
    ApplyAppend(d.refs, rs, Changes(DEC, ids[..j]));
    NeedOfOne(cfg.sc, others, c, counts);
    TakesFirst(counts, Total(Demand(cfg.sc, others)), ids, j);
  }

  lemma NeedOfOne(sc: Scheme, others: multiset<bytes>, c: bytes, counts: Counts)
    requires c !in others && CountsMatch(sc, others + multiset{c}, counts)
    ensures forall id :: Count(counts, id) == Total(Demand(sc, others))[id] + multiset(sc.Ids(c))[id]
  {
    hide Total, Demand, Scheme.Ids, Count;
    DemandOfMore(sc, others, c);
  }

  lemma FirstChanges(ids: seq<Id>, j: nat)
    requires j <= |ids|
    ensures Changes(DEC, ids)[..j] == Changes(DEC, ids[..j])
  {
  }

  /** Taking the first j of ids from counts that hold all of them. */
  lemma TakesFirst(counts: Counts, need: multiset<Id>, ids: seq<Id>, j: nat)
    requires j <= |ids| && forall id :: Count(counts, id) == need[id] + multiset(ids)[id]
    ensures ApplyAll(counts, Changes(DEC, ids[..j])).Ok?
    ensures forall id ::
              Count(ApplyAll(counts, Changes(DEC, ids[..j])).counts, id) == need[id] + multiset(ids[j..])[id]
    ensures forall id :: multiset(ids[j..])[id] + need[id] <= Count(counts, id)
  {
    hide ApplyAll, Changes, Count;
    assert ids == ids[..j] + ids[j..];
    ApplyDecrements(counts, ids[..j]);
  }

  /** What is to be known of that disk. */
  lemma CutSafe(s: DiskStore, c: bytes, cut: nat, gone: bool)
    requires Exact(s, c) && CutPoint(s.cfg, c, cut, gone)
    ensures s.cfg.sc.Sound(s.known) && s.blobs.Valid() && !s.blobs.closed && NoZeros(s.refsFile)
    ensures !s.HalfGone(s.cfg.sc.objectId(c))
    ensures var e := CutShort(s.cfg, s.OnDisk(), c, cut, gone);
      && Safe(s.cfg, s.known, Dooming(s.held, c), e)
      && Recovered(e, s.cfg.crc).Ok?
      && (forall id ::
            Count(Recovered(e, s.cfg.crc).counts, id)
            == Total(Demand(s.cfg.sc, s.held.contents - multiset{c}))[id]
             + multiset(s.cfg.sc.Ids(c)[cut / REC..])[id])
      && (forall id :: Count(Recovered(e, s.cfg.crc).counts, id) + 2 * |e.journal| + 2 * MAX_CHUNKS < TWO64)
      && |e.journal| == |s.journal.file| + cut && |s.journal.file| % REC == 0
    ensures var o := s.cfg.sc.objectId(c);
      o in s.indexFile && s.indexFile[o].useCount == 1 && o in s.raws && c in s.known
    ensures forall d :: d in s.held.contents && s.cfg.sc.objectId(d) == s.cfg.sc.objectId(c) ==> d == c
  {
    hide Covers, Image, ApplyAll, Replay, NoZeros, Total, Demand, Safe, CountsMatch, Lengths, Sum, Scheme.Sound,
      Changes, Scheme.Ids, CutShort, Recovered, Grows, Count;
    var cfg, d, ids := s.cfg, s.OnDisk(), s.cfg.sc.Ids(c);
    var e := CutShort(cfg, d, c, cut, gone);
    CutIs(cfg, d, c, cut, gone);
    SafeCut(s, c, cut, gone);
    assert s.held.contents - multiset{c} + multiset{c} == s.held.contents;
    CutCounts(cfg, s.held.contents - multiset{c}, c, d, s.pending, s.refs.counts, cut, gone);
    OneCopy(s, c);
  }

  lemma CutIs(cfg: Config, d: Disk, c: bytes, cut: nat, gone: bool)
    requires CutPoint(cfg, c, cut, gone)
    ensures var e := CutShort(cfg, d, c, cut, gone);
      var file := d.journal + Image(Changes(DEC, cfg.sc.Ids(c)), cfg.crc);
      && e == d.(raws := e.raws, journal := file[..|d.journal| + cut]) && |e.journal| == |d.journal| + cut
      && cut / REC <= |cfg.sc.Ids(c)|
      && e.raws == if gone then d.raws - {cfg.sc.objectId(c)} else d.raws
  {
    hide Image, Scheme.Ids;
    ChangesLong(DEC, cfg.sc.Ids(c));
    var file := d.journal + Image(Changes(DEC, cfg.sc.Ids(c)), cfg.crc);
    assert file[..|file|] == file;
  }

  lemma SafeCut(s: DiskStore, c: bytes, cut: nat, gone: bool)
    requires Exact(s, c) && CutPoint(s.cfg, c, cut, gone)
    ensures Safe(s.cfg, s.known, Dooming(s.held, c), CutShort(s.cfg, s.OnDisk(), c, cut, gone))
  {
    hide Covers, Image, ApplyAll, NoZeros, Safe, CountsMatch, Lengths, Sum, Scheme.Sound, Changes, Scheme.Ids,
      CutShort, Grows;
    var e := CutShort(s.cfg, s.OnDisk(), c, cut, gone);
    CutIs(s.cfg, s.OnDisk(), c, cut, gone);
    RoomForCut(s, c);
    TornDelete(s.cfg, s.known, s.held, c, s.Now(), s.OnDisk(), s.pending, [], e.raws, |s.journal.file| + cut);
  }

  lemma RoomForCut(s: DiskStore, c: bytes)
    requires Exact(s, c)
    ensures forall id :: Count(s.refsFile, id) + |s.pending| + |s.cfg.sc.Ids(c)| < TWO64
  {
    hide Covers, Image, ApplyAll, NoZeros, CountsMatch, Lengths, Sum, Scheme.Sound, Scheme.Ids;
    RoomBelow(s.refsFile, s.pending, s.torn, s.refs.counts, |s.cfg.sc.Ids(c)|);
  }

  lemma OneCopy(s: DiskStore, c: bytes)
    requires s.Valid() && s.held.contents[c] == 1
    ensures var o := s.cfg.sc.objectId(c);
      o in s.indexFile && s.indexFile[o].useCount == 1 && o in s.raws && c in s.known
    ensures forall d :: d in s.held.contents && s.cfg.sc.objectId(d) == s.cfg.sc.objectId(c) ==> d == c
  {
    hide Covers, Image, ApplyAll, NoZeros, Lengths, Sum;
    OneCovered(s.cfg, s.known, s.held, s.Now(), c);
    forall d | d in s.held.contents
      ensures d in s.known
    {
      OneCovered(s.cfg, s.known, s.held, s.Now(), d);
    }
  }

  lemma Ready(t: DiskStore)
    requires t.Valid() && forall id :: Count(t.refs.counts, id) + 2 * |t.journal.file| + 2 * MAX_CHUNKS < TWO64
    ensures t.Roomy() && (|t.journal.file| % REC == 0 ==> t.torn == [])
  {
    hide Covers, Image, ApplyAll, NoZeros, Lengths, Sum, DiskStore.Valid, Count;
    t.Journalled();
    JournalLong(t.pending, t.torn, t.journal.file, t.cfg.crc);
    TornIsRest(t.pending, t.torn, t.journal.file, t.cfg.crc);
  }

  lemma TornIsRest(rs: seq<Rec>, torn: bytes, file: bytes, crc: Crc)
    requires file == Image(rs, crc) + torn && |torn| < REC
    ensures |file| % REC == 0 ==> torn == []
  {
    hide Image;
    assert |file| == REC * |rs| + |torn|;
  }

  /** The disk a crash on the way of a Delete of c leaves. */
  method CrashIn(s: DiskStore, c: bytes, cut: nat, gone: bool) returns (e: Disk)
    requires Exact(s, c) && CutPoint(s.cfg, c, cut, gone)
    modifies s, s.journal, s.refs`counts, s.refs`dirty, s.idx
    ensures e == CutShort(s.cfg, old(s.OnDisk()), c, cut, gone) && e in s.past && e.blobs == s.blobs.blobs
    ensures s.blobs.Valid() && !s.blobs.closed
  {
    hide Covers, Image, ApplyAll, Replay, NoZeros, Total, Demand, Safe, CountsMatch, Lengths, Sum, Scheme.Sound,
      Changes, Scheme.Ids, LastDisks, Leaves, DiskStore.AtWindow, DiskStore.TriedAgain, Grows, PersistDisks,
      Recovered, CutPoint, Count, DiskStore.Tracked;
    ghost var d := s.OnDisk();
    e := CutShort(s.cfg, Disk(s.blobs.blobs, s.raws, s.indexFile, s.refsFile, s.journal.file), c, cut, gone);
    CutSafe(s, c, cut, gone);
    var ok, removed, ids, done := s.Delete(s.cfg.sc.objectId(c));
    OnTheWay(s.cfg, d, c, cut, gone, s.idx.objects, s.refs.counts);
  }

  /** Deletes c from s, crashes on the way, and opens what is on the disk. */
  method Reopen(s: DiskStore, c: bytes, cut: nat, gone: bool) returns (t: DiskStore)
    requires Exact(s, c) && CutPoint(s.cfg, c, cut, gone)
    modifies s, s.journal, s.refs`counts, s.refs`dirty, s.idx
    ensures CutShort(s.cfg, old(s.OnDisk()), c, cut, gone) in s.past
    ensures fresh(t) && fresh(t.refs) && fresh(t.idx) && fresh(t.journal) && t.blobs == s.blobs
    ensures t.cfg == s.cfg && t.known == s.known && t.held == Dooming(old(s.held), c)
    ensures t.OnDisk() == CutShort(s.cfg, old(s.OnDisk()), c, cut, gone)
    ensures t.Valid() && t.Roomy() && (cut % REC == 0 ==> t.torn == [])
    ensures Left(t, c, cut / REC)
    ensures t.raws == if gone then old(s.raws) - {s.cfg.sc.objectId(c)} else old(s.raws)
    ensures s.cfg.sc.objectId(c) in old(s.raws) && c in t.known
  {
    hide Covers, Image, ApplyAll, Replay, NoZeros, Total, Demand, Safe, CountsMatch, Lengths, Sum, Scheme.Sound,
      Changes, Scheme.Ids, Grows, Recovered, Count, DiskStore.Tracked, CutShort, Exact, DiskStore.Valid,
      DiskStore.Wired, DiskStore.Roomy, DiskStore.HalfGone, Left;
    ghost var h := s.held;
    CutSafe(s, c, cut, gone);
    CutIs(s.cfg, s.OnDisk(), c, cut, gone);
    var e := CrashIn(s, c, cut, gone);
    t := OpenCut(e, s.blobs, s.cfg, s.known, Dooming(h, c), c, cut / REC);
  }

  /** Opens a disk from which the counts come back that j records have left. */
  method OpenCut(e: Disk, blobs: Memory, cfg: Config, ghost known: iset<bytes>, ghost h: Held, c: bytes, ghost j: nat)
    returns (t: DiskStore)
    requires cfg.sc.Sound(known) && blobs.Valid() && !blobs.closed && blobs.blobs == e.blobs && Safe(cfg, known, h, e)
    requires Recovered(e, cfg.crc).Ok? && j <= |cfg.sc.Ids(c)|
    requires forall id ::
               Count(Recovered(e, cfg.crc).counts, id)
               == Total(Demand(cfg.sc, h.contents))[id] + multiset(cfg.sc.Ids(c)[j..])[id]
    requires forall id :: Count(Recovered(e, cfg.crc).counts, id) + 2 * |e.journal| + 2 * MAX_CHUNKS < TWO64
    requires cfg.sc.objectId(c) in e.index && e.index[cfg.sc.objectId(c)].useCount == 1
    ensures fresh(t) && fresh(t.refs) && fresh(t.idx) && fresh(t.journal) && t.blobs == blobs
    ensures t.cfg == cfg && t.known == known && t.held == h && t.OnDisk() == e
    ensures t.Valid() && t.Roomy() && (|e.journal| % REC == 0 ==> t.torn == []) && Left(t, c, j)
  {
    hide Covers, Image, ApplyAll, Replay, NoZeros, Total, Demand, Safe, Lengths, Sum, Scheme.Sound, Scheme.Ids, Grows,
      Recovered, Count, DiskStore.Tracked, DiskStore.Valid, DiskStore.Wired, DiskStore.Roomy, Left;
    SnapshotClean(cfg, known, h, e);
    var found := Open(e, blobs, cfg, known, h);
    t := found;
    Ready(t);
    LeftHere(t, c, j);
  }

  lemma SnapshotClean(cfg: Config, known: iset<bytes>, h: Held, e: Disk)
    requires Safe(cfg, known, h, e)
    ensures NoZeros(e.refs)
  {
  }

  lemma LeftHere(t: DiskStore, c: bytes, j: nat)
    requires t.Valid() && j <= |t.cfg.sc.Ids(c)|
    requires t.cfg.sc.objectId(c) in t.indexFile && t.indexFile[t.cfg.sc.objectId(c)].useCount == 1
    requires forall id ::
               Count(t.refs.counts, id)
               == Total(Demand(t.cfg.sc, t.held.contents))[id] + multiset(t.cfg.sc.Ids(c)[j..])[id]
    ensures Left(t, c, j)
  {
    hide Covers, Image, ApplyAll, NoZeros, Total, Demand, Lengths, Sum, Scheme.Sound, Scheme.Ids, Count;
  }

  /** The counts t starts from, after j records of a Delete of c: what the others need and the references not
      taken back by then. The object is still listed, once. */
  ghost predicate Left(t: DiskStore, c: bytes, j: nat)
    reads t, t.refs, t.idx
  {
    var o := t.cfg.sc.objectId(c);
    && j <= |t.cfg.sc.Ids(c)| && o in t.idx.objects && t.idx.objects[o].useCount == 1
    && forall id ::
         Count(t.refs.counts, id)
         == Total(Demand(t.cfg.sc, t.held.contents))[id] + multiset(t.cfg.sc.Ids(c)[j..])[id]
  }

  /** What is left of the first copy of c: its manifest and all its counts exactly if no record had been
      journalled and the manifest was not removed. */
  lemma WholeIfUntouched(t: DiskStore, c: bytes, j: nat)
    requires Left(t, c, j) && c !in t.held.contents
    ensures Whole(t.cfg.sc, t.held, t.raws, t.refs.counts, c) <==> j == 0 && t.cfg.sc.objectId(c) in t.raws
  {
    hide Enough, Total, Demand, Scheme.Ids, Count;
    RetriedPut(t.cfg.sc, t.held.contents, c, j, t.refs.counts);
  }

  /** A store that was opened on what a crashed Delete of c had left, j records into it. */
  ghost predicate HalfRemoved(t: DiskStore, c: bytes, j: nat)
    reads t, t.blobs, t.refs, t.idx, t.journal
  {
    t.Valid() && t.Roomy() && Left(t, c, j) && c in t.known && c in t.held.doomed && c !in t.held.contents
  }

  /** Such an object is put again, and then there is a collection. */
  method PutListed(t: DiskStore, c: bytes, ghost j: nat) returns (ok: bool)
    requires HalfRemoved(t, c, j)
    modifies t, t.journal, t.blobs`blobs, t.blobs`nbytes, t.refs`counts, t.refs`dirty, t.idx
    ensures t.Valid() && ok
    ensures c in t.held.contents <==> j == 0 && t.cfg.sc.objectId(c) in old(t.raws)
    ensures Covers(t.cfg, t.known, Revived(old(t.held), c, 2), t.Now())
       <==> j == 0 && t.cfg.sc.objectId(c) in old(t.raws)
    ensures forall id :: id in t.cfg.sc.Ids(c) ==> (id in t.blobs.blobs <==> Count(old(t.refs.counts), id) > 0)
  {
    hide Covers, Image, ApplyAll, Replay, NoZeros, Total, Demand, Safe, CountsMatch, Lengths, Sum, Scheme.Sound,
      Changes, Scheme.Ids, Grows, Recovered, Count, DiskStore.Tracked, Whole, PutDisks, Leaves, DiskStore.AtWindow,
      Survives, SweepDisks, PersistDisks, Collecting.Reports, Again, Scheme.Pieces, Collecting.Dead, DiskStore.Roomy,
      DiskStore.Wired;
    ghost var h, raws, counts := t.held, t.raws, t.refs.counts;
    RoomLeft(t);
    WholeIfUntouched(t, c, j);
    ghost var ids;
    ok, ids := t.Put(c);
    StillRoom(t, counts);
    ghost var blobs := t.blobs.blobs;
    var st := t.Gc();
    KeepsCounted(t.cfg.sc, blobs, counts, c);
    if Covers(t.cfg, t.known, Revived(h, c, 2), t.Now()) {
      RevivedNeeds(t.cfg, t.known, h, t.Now(), c, 2);
    }
  }

  lemma StillRoom(t: DiskStore, counts: Counts)
    requires t.pending == [] && t.refs.counts == counts && forall id :: Count(counts, id) + 2 * MAX_CHUNKS < TWO64
    ensures t.Roomy()
  {
  }

  lemma RoomLeft(t: DiskStore)
    requires t.Roomy()
    ensures forall id :: Count(t.refs.counts, id) + 2 * MAX_CHUNKS < TWO64
  {
  }

  /** A collection leaves exactly those chunks of c that are counted, if all of them were there. */
  lemma KeepsCounted(sc: Scheme, blobs: map<Id, bytes>, counts: Counts, c: bytes)
    requires ChunksPresent(sc, blobs, c)
    ensures forall id :: id in sc.Ids(c) ==> (id in blobs - Collecting.Dead(blobs, counts) <==> Count(counts, id) > 0)
  {
    hide Scheme.Pieces;
    forall id | id in sc.Ids(c)
      ensures id in blobs
    {
      var i :| 0 <= i < |sc.Ids(c)| && sc.Ids(c)[i] == id;
      SameLength(sc, c);
    }
  }

  lemma SameLength(sc: Scheme, c: bytes)
    ensures |sc.Ids(c)| == |sc.Pieces(c)|
  {
  }

  /** A Delete of the only copy of c crashes on its way; the store is reopened, and c is put again. The Put
      reports success. But c is held only if the Delete had left no trace. After the next collection a chunk of
      c is there exactly if others need it or its count had not been taken back. */
  method PutAgain(s: DiskStore, c: bytes, cut: nat, gone: bool) returns (t: DiskStore, ok: bool)
    requires Exact(s, c) && CutPoint(s.cfg, c, cut, gone)
    modifies s, s.journal, s.refs`counts, s.refs`dirty, s.idx, s.blobs`blobs, s.blobs`nbytes
    ensures CutShort(s.cfg, old(s.OnDisk()), c, cut, gone) in s.past
    ensures t.cfg == s.cfg && t.known == s.known && fresh(t) && t.Valid() && ok
    ensures c in t.held.contents <==> cut < REC && !gone
    ensures Covers(s.cfg, s.known, Revived(Dooming(old(s.held), c), c, 2), t.Now()) <==> cut < REC && !gone
    ensures forall id :: id in s.cfg.sc.Ids(c) ==>
              (id in t.blobs.blobs <==>
                 Total(Demand(s.cfg.sc, old(s.held.contents) - multiset{c}))[id]
                 + multiset(s.cfg.sc.Ids(c)[cut / REC..])[id] > 0)
  {
    hide Covers, Image, ApplyAll, NoZeros, Total, Demand, CountsMatch, Lengths, Sum, Scheme.Sound, Changes,
      Scheme.Ids, Grows, Count, DiskStore.Tracked, CutShort, DiskStore.Valid, DiskStore.Roomy;
    Single(s, c);
    t := Reopen(s, c, cut, gone);
    ok := PutListed(t, c, cut / REC);
  }

  lemma Single(s: DiskStore, c: bytes)
    requires Exact(s, c)
    ensures c !in Dooming(s.held, c).contents && c in Dooming(s.held, c).doomed
  {
  }

  /** Such an object is deleted again. */
  method DeleteListed(t: DiskStore, c: bytes, ghost j: nat) returns (ok: bool, ghost done: nat)
    requires HalfRemoved(t, c, j)
    modifies t, t.journal, t.refs`counts, t.refs`dirty, t.idx
    ensures t.held.contents == old(t.held.contents) && done <= |t.cfg.sc.Ids(c)|
    ensures t.cfg.sc.objectId(c) !in old(t.raws) ==> !ok && done == 0 && t.Valid()
    ensures t.cfg.sc.objectId(c) in old(t.raws) ==>
              && RetriedTo(t, c, j, ok, done)
              && (ok || old(t.torn) == [] || done == 0 ==>
                    (t.Valid() <==> Enough(t.cfg.sc, t.held.contents, t.refs.counts)))
  {
    hide Covers, Image, ApplyAll, NoZeros, Total, Demand, CountsMatch, Lengths, Sum, Scheme.Sound, Changes,
      Scheme.Ids, Grows, Count, DiskStore.Tracked, DiskStore.Roomy, DiskStore.Wired, Leaves, Minus, Enough, LastDisks,
      PersistDisks, Torn, DiskStore.AtWindow, RetriedTo, DiskStore.TookAll;
    ghost var counts, others := t.refs.counts, t.held.contents;
    ghost var removed, ids;
    OnlyThis(t, c);
    ok, removed, ids, done := t.Delete(t.cfg.sc.objectId(c));
    if t.cfg.sc.objectId(c) in old(t.raws) {
      TookHere(t, old(t.Now()), old(t.OnDisk()), c, ok, done);
      GotThisFar(t, c, j, counts, ok, done);
    }
  }

  lemma OnlyThis(t: DiskStore, c: bytes)
    requires t.Valid() && c in t.known && c in t.held.doomed && t.cfg.sc.objectId(c) in t.idx.objects
    ensures t.HalfGone(t.cfg.sc.objectId(c))
    ensures forall d :: d in t.held.doomed && t.cfg.sc.objectId(d) == t.cfg.sc.objectId(c) ==> d == c
  {
    hide HoldsAll, Listed, Genuine, Enough, Lengths, Sum, NoZeros, Image, ApplyAll;
  }

  lemma TookHere(t: DiskStore, k: Kept, d: Disk, c: bytes, ok: bool, done: nat)
    requires t.TookAll(k, d, iset{d}, t.cfg.sc.objectId(c), t.cfg.sc.Ids(c), ok, done)
    ensures Took(t, c, k.counts, ok, done)
  {
    hide Image, Changes, Scheme.Ids, Torn, PersistDisks, Minus, Count;
  }

  /** The first done references of c are taken from counts, and no more only if there was no more. */
  ghost predicate Took(t: DiskStore, c: bytes, counts: Counts, ok: bool, done: nat)
    reads t, t.refs
  {
    var ids := t.cfg.sc.Ids(c);
    && done <= |ids| && (ok <==> done == |ids|)
    && (ok <==> forall id :: multiset(ids)[id] <= Count(counts, id))
    && (!ok ==> Count(t.refs.counts, ids[done]) == 0)
    && Minus(t.refs.counts, counts, ids[..done])
  }

  lemma GotThisFar(t: DiskStore, c: bytes, j: nat, counts: Counts, ok: bool, done: nat)
    requires Took(t, c, counts, ok, done) && j <= |t.cfg.sc.Ids(c)|
    requires forall id ::
               Count(counts, id)
               == Total(Demand(t.cfg.sc, t.held.contents))[id] + multiset(t.cfg.sc.Ids(c)[j..])[id]
    ensures RetriedTo(t, c, j, ok, done)
  {
    hide Total, Demand, Count, Scheme.Ids, Enough;
    var ids := t.cfg.sc.Ids(c);
    RetriedDelete(t.cfg.sc, t.held.contents, ids, j, counts, done, t.refs.counts);
    if !ok {
      assert Count(t.refs.counts, ids[done]) == Count(counts, ids[done]) - multiset(ids[..done])[ids[done]];
    }
  }

  /** How far a second Delete of c gets, j of whose chunks had been counted down, and what that means for the
      others: it takes the references that are there, in order, up to the first that is not. */
  ghost predicate RetriedTo(t: DiskStore, c: bytes, j: nat, ok: bool, done: nat)
    reads t, t.refs
  {
    var ids, need := t.cfg.sc.Ids(c), Total(Demand(t.cfg.sc, t.held.contents));
    && j <= |ids| && done <= |ids| && (ok <==> done == |ids|)
    && (ok <==> multiset(ids[..j]) <= need)
    && (!ok ==> need[ids[done]] + multiset(ids[j..])[ids[done]] == multiset(ids[..done])[ids[done]])
    && (Enough(t.cfg.sc, t.held.contents, t.refs.counts) <==> multiset(ids[..done]) <= multiset(ids[j..]))
  }

  /** A Delete of the only copy of c crashes on its way; the store is reopened, and c is deleted again. It goes
      through exactly if others need what had been taken back already; else it stops at the first chunk that
      counts nothing, and gives nothing back. The others are left enough exactly if what it took had not been
      taken before. Without its manifest it changes nothing. */
  method DeleteAgain(s: DiskStore, c: bytes, cut: nat, gone: bool) returns (t: DiskStore, ok: bool, ghost done: nat)
    requires Exact(s, c) && CutPoint(s.cfg, c, cut, gone)
    modifies s, s.journal, s.refs`counts, s.refs`dirty, s.idx
    ensures CutShort(s.cfg, old(s.OnDisk()), c, cut, gone) in s.past
    ensures t.cfg == s.cfg && t.known == s.known && fresh(t)
    ensures t.held.contents == old(s.held.contents) - multiset{c}
    ensures gone ==> !ok && done == 0 && t.Valid()
    ensures !gone ==>
              && RetriedTo(t, c, cut / REC, ok, done)
              && (ok || cut % REC == 0 || done == 0 ==>
                    (t.Valid() <==> Enough(s.cfg.sc, t.held.contents, t.refs.counts)))
  {
    hide Covers, Image, ApplyAll, NoZeros, Total, Demand, CountsMatch, Lengths, Sum, Scheme.Sound, Changes,
      Scheme.Ids, Grows, Count, DiskStore.Tracked, CutShort, DiskStore.Valid, DiskStore.Roomy, RetriedTo;
    Single(s, c);
    t := Reopen(s, c, cut, gone);
    ok, done := DeleteListed(t, c, cut / REC);
  }
}
