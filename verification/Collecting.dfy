/** Garbage collection by reference count, and repair of drifted counts (internal/gc). */
module Collecting {
  import opened Bytes
  import opened Sums
  import opened Schemes
  import opened Backends
  import opened Indexes
  import opened Manifests
  import opened Journals
  import opened Refcounts
  import BlobReaders

  datatype Stats = Stats(scanned: nat, deleted: nat, retained: nat, bytesFree: nat, skipped: nat)

  /** Chunks in the backend that nobody refers to. */
  ghost function Dead(blobs: map<Id, bytes>, counts: Counts): set<Id> {
    set id | id in blobs && Count(counts, id) == 0
  }

  ghost function Only(blobs: map<Id, bytes>, ids: set<Id>): map<Id, bytes> {
    map id | id in blobs && id in ids :: blobs[id]
  }

  ghost function BytesOf(blobs: map<Id, bytes>, ids: set<Id>): nat {
    Sum(Lengths(Only(blobs, ids)))
  }

  lemma BytesOfOneMore(blobs: map<Id, bytes>, ids: set<Id>, id: Id)
    requires id in blobs && id !in ids
    ensures BytesOf(blobs, ids + {id}) == BytesOf(blobs, ids) + |blobs[id]|
  {
    var a := Lengths(Only(blobs, ids));
    assert Lengths(Only(blobs, ids + {id})) == a[id := |blobs[id]|];
    SumSet(a, id, |blobs[id]|);
  }

  /** The statistics a collection of everything in seen has to show. */
  ghost predicate Reports(st: Stats, blobs: map<Id, bytes>, counts: Counts, seen: set<Id>) {
    && st.scanned == |seen| && st.skipped == 0
    && st.deleted == |Dead(blobs, counts) * seen|
    && st.retained == |seen - Dead(blobs, counts)|
    && st.bytesFree == BytesOf(blobs, Dead(blobs, counts) * seen)
  }

  /** The statistics after one more chunk. */
  ghost function Tally(st: Stats, blobs: map<Id, bytes>, counts: Counts, id: Id): Stats {
    var st' := st.(scanned := st.scanned + 1);
    if Count(counts, id) > 0 then st'.(retained := st.retained + 1)
    else if id !in blobs then st'.(skipped := st.skipped + 1)
    else st'.(deleted := st.deleted + 1, bytesFree := st.bytesFree + |blobs[id]|)
  }

  /** The backend after it. */
  ghost function AfterVisit(blobs: map<Id, bytes>, counts: Counts, id: Id, dry: bool): map<Id, bytes> {
    if dry || Count(counts, id) > 0 then blobs else blobs - {id}
  }

  lemma ReportOneMore(st: Stats, blobs: map<Id, bytes>, counts: Counts, seen: set<Id>, id: Id)
    requires Reports(st, blobs, counts, seen) && id in blobs && id !in seen
    ensures Reports(Tally(st, blobs, counts, id), blobs, counts, seen + {id})
  {
    hide BytesOf;
    var dead := Dead(blobs, counts);
    SeenOneMore(dead, seen, id);
    if id in dead {
      BytesOfOneMore(blobs, dead * seen, id);
    }
    hide Dead;
  }

  lemma SeenOneMore(dead: set<Id>, seen: set<Id>, id: Id)
    requires id !in seen
    ensures id in dead ==> dead * (seen + {id}) == dead * seen + {id} && (seen + {id}) - dead == seen - dead
    ensures id !in dead ==> dead * (seen + {id}) == dead * seen && (seen + {id}) - dead == (seen - dead) + {id}
    ensures |seen + {id}| == |seen| + 1
    ensures id in dead ==> |dead * (seen + {id})| == |dead * seen| + 1
    ensures id !in dead ==> |(seen + {id}) - dead| == |seen - dead| + 1
  {
    assert id in dead ==> dead * (seen + {id}) == dead * seen + {id};
    assert id !in dead ==> (seen + {id}) - dead == (seen - dead) + {id};
  }

  lemma ReportAdds(st: Stats, blobs: map<Id, bytes>, counts: Counts)
    requires Reports(st, blobs, counts, blobs.Keys)
    ensures st.scanned == st.deleted + st.retained + st.skipped == |blobs| && st.skipped == 0
    ensures st.deleted == |Dead(blobs, counts)|
    ensures st.bytesFree == BytesOf(blobs, Dead(blobs, counts))
  {
    var dead := Dead(blobs, counts);
    assert dead * blobs.Keys == dead;
    assert dead + (blobs.Keys - dead) == blobs.Keys;
  }

  /** What a collection does with one chunk. */
  method Visit(blobs: Memory, refs: Table, dry: bool, id: Id, st: Stats) returns (st': Stats)
    requires blobs.Valid()
    modifies blobs`blobs, blobs`nbytes
    ensures blobs.Valid()
    ensures blobs.blobs == if blobs.closed then old(blobs.blobs) else AfterVisit(old(blobs.blobs), refs.counts, id, dry)
    ensures st' == Tally(st, old(blobs.Readable()), refs.counts, id)
  {
    st' := st.(scanned := st.scanned + 1);
    var n := refs.Get(id);
    if n > 0 {
      return st'.(retained := st'.retained + 1);
    }
    var data := blobs.Get(id);
    if !data.Found? {
      return st'.(skipped := st'.skipped + 1);
    }
    if !dry {
      n := refs.Get(id);
      if n > 0 {
        assert false;   // the second look gives the same count: nobody else is inside the fence
      }
      var removed := blobs.Delete(id);
    }
    return st'.(deleted := st'.deleted + 1, bytesFree := st'.bytesFree + |data.data|);
  }

  /** One collection: removes exactly the dead chunks, or with dry removes nothing; the statistics are
      the same either way. */
  method Run(blobs: Memory, refs: Table, dry: bool) returns (ok: bool, st: Stats)
    requires blobs.Valid()
    modifies blobs`blobs, blobs`nbytes
    ensures blobs.Valid() && ok == !blobs.closed
    ensures !ok ==> blobs.blobs == old(blobs.blobs)
    ensures ok ==>
              blobs.blobs == if dry then old(blobs.blobs) else old(blobs.blobs) - Dead(old(blobs.blobs), refs.counts)
    ensures ok ==> Reports(st, old(blobs.blobs), refs.counts, old(blobs.blobs).Keys)
  {
    hide Reports, Lists, Tally, Remaining, Front, Lengths, Sum, Dead, AfterVisit;
    st := Stats(0, 0, 0, 0, 0);
    var ids;
    ok, ids := blobs.List();
    if !ok {
      return;
    }
    ghost var all, dead := blobs.blobs, Dead(blobs.blobs, refs.counts);
    NothingSeen(all, refs.counts);
    RemainingAtEnd(all, dead, dry);
    FrontNone(ids);
    for i := 0 to |ids|
      invariant blobs.Valid() && !blobs.closed
      invariant blobs.blobs == Remaining(all, dead, Front(ids, i), dry)
      invariant Reports(st, all, refs.counts, Front(ids, i))
    {
      NextListed(ids, all.Keys, i);
      SweepOneMore(all, refs.counts, Front(ids, i), ids[i], dry, st);
      ReportOneMore(st, all, refs.counts, Front(ids, i), ids[i]);
      st := Visit(blobs, refs, dry, ids[i], st);
    }
    AllListed(ids, all.Keys);
  }

  /** What is left after the chunks in seen have been visited. */
  ghost function Remaining(all: map<Id, bytes>, dead: set<Id>, seen: set<Id>, dry: bool): map<Id, bytes> {
    if dry then all else all - (dead * seen)
  }

  lemma RemainingAtEnd(all: map<Id, bytes>, dead: set<Id>, dry: bool)
    ensures Remaining(all, dead, {}, dry) == all
    ensures dead <= all.Keys ==> Remaining(all, dead, all.Keys, dry) == if dry then all else all - dead
  {
    assert dead <= all.Keys ==> dead * all.Keys == dead;
    assert dead * {} == {};
  }

  function Front(ids: seq<Id>, i: nat): set<Id>
    requires i <= |ids|
  {
    set j | 0 <= j < i :: ids[j]
  }

  lemma FrontOneMore(ids: seq<Id>, i: nat)
    requires i < |ids|
    ensures Front(ids, i + 1) == Front(ids, i) + {ids[i]}
  {
  }

  lemma FrontNone(ids: seq<Id>)
    ensures Front(ids, 0) == {}
  {
  }

  lemma NothingSeen(blobs: map<Id, bytes>, counts: Counts)
    ensures Reports(Stats(0, 0, 0, 0, 0), blobs, counts, {})
    ensures Dead(blobs, counts) <= blobs.Keys
  {
    var dead := Dead(blobs, counts);
    assert dead * {} == {};
    assert Lengths(Only(blobs, dead * {})) == map[];
  }

  lemma NextListed(ids: seq<Id>, keys: set<Id>, i: nat)
    requires Lists(ids, keys) && i < |ids|
    ensures ids[i] in keys && ids[i] !in Front(ids, i) && Front(ids, i + 1) == Front(ids, i) + {ids[i]}
  {
  }

  lemma AllListed(ids: seq<Id>, keys: set<Id>)
    requires Lists(ids, keys)
    ensures Front(ids, |ids|) == keys
  {
    forall id | id in keys
      ensures id in Front(ids, |ids|)
    {
      var j :| 0 <= j < |ids| && ids[j] == id;
    }
  }

  lemma SweepOneMore(all: map<Id, bytes>, counts: Counts, seen: set<Id>, id: Id, dry: bool, st: Stats)
    requires id in all && id !in seen
    ensures var now := Remaining(all, Dead(all, counts), seen, dry);
      && Remaining(all, Dead(all, counts), seen + {id}, dry) == AfterVisit(now, counts, id, dry)
      && Tally(st, now, counts, id) == Tally(st, all, counts, id)
  {
    var dead := Dead(all, counts);
    if id in dead {
      assert dead * (seen + {id}) == dead * seen + {id};
    } else {
      assert dead * (seen + {id}) == dead * seen;
    }
  }

  /** The places in a list at which a counted chunk stands. */
  ghost function Counted(counts: Counts, ids: seq<Id>, n: nat): set<nat>
    requires n <= |ids|
  {
    set i | 0 <= i < n && Count(counts, ids[i]) > 0
  }

  /** The statistics of a sweep over the first n of ids: a dead chunk is deleted where it is listed first;
      what is listed again, or not there, is skipped. */
  ghost predicate Swept(st: Stats, blobs: map<Id, bytes>, counts: Counts, ids: seq<Id>, n: nat)
    requires n <= |ids|
  {
    var gone := Dead(blobs, counts) * Front(ids, n);
    && st.scanned == n == st.deleted + st.retained + st.skipped
    && st.retained == |Counted(counts, ids, n)|
    && st.deleted == |gone| && st.bytesFree == BytesOf(blobs, gone)
  }

  lemma SweptNone(blobs: map<Id, bytes>, counts: Counts, ids: seq<Id>)
    ensures Swept(Stats(0, 0, 0, 0, 0), blobs, counts, ids, 0)
    ensures blobs - (Dead(blobs, counts) * Front(ids, 0)) == blobs
  {
    NothingSeen(blobs, counts);
    assert Dead(blobs, counts) * Front(ids, 0) == {};
    assert Counted(counts, ids, 0) == {};
  }

  lemma CountedOneMore(counts: Counts, ids: seq<Id>, n: nat)
    requires n < |ids|
    ensures |Counted(counts, ids, n + 1)| == |Counted(counts, ids, n)| + if Count(counts, ids[n]) > 0 then 1 else 0
  {
    if Count(counts, ids[n]) > 0 {
      assert Counted(counts, ids, n + 1) == Counted(counts, ids, n) + {n};
    } else {
      assert Counted(counts, ids, n + 1) == Counted(counts, ids, n);
    }
  }

  /** The dead among the first n + 1: one more if it is listed for the first time. */
  lemma GoneOneMore(dead: set<Id>, ids: seq<Id>, n: nat)
    requires n < |ids|
    ensures var gone := dead * Front(ids, n);
      dead * Front(ids, n + 1) == if ids[n] in dead then gone + {ids[n]} else gone
  {
    FrontOneMore(ids, n);
    hide Front;
  }

  lemma LessAndLess(all: map<Id, bytes>, gone: set<Id>, id: Id)
    ensures all - (gone + {id}) == all - gone - {id}
    ensures id in gone || id !in all ==> all - gone - {id} == all - gone
    ensures id in gone ==> gone + {id} == gone
  {
  }

  lemma SweptOneMore(st: Stats, all: map<Id, bytes>, counts: Counts, ids: seq<Id>, n: nat)
    requires n < |ids| && Swept(st, all, counts, ids, n)
    ensures var now := all - (Dead(all, counts) * Front(ids, n));
      && Swept(Tally(st, now, counts, ids[n]), all, counts, ids, n + 1)
      && AfterVisit(now, counts, ids[n], false) == all - (Dead(all, counts) * Front(ids, n + 1))
  {
    hide BytesOf, Counted, Front, Dead;
    var dead, id := Dead(all, counts), ids[n];
    var gone := dead * Front(ids, n);
    IsDead(all, counts, id);
    CountedOneMore(counts, ids, n);
    GoneOneMore(dead, ids, n);
    LessAndLess(all, gone, id);
    if id in dead && id !in gone {
      BytesOfOneMore(all, gone, id);
    }
  }

  lemma IsDead(blobs: map<Id, bytes>, counts: Counts, id: Id)
    ensures id in Dead(blobs, counts) <==> id in blobs && Count(counts, id) == 0
  {
  }

  /** Collects only the listed chunks: those of them that are stored and dead go; a closed backend keeps
      everything. */
  method SweepIds(blobs: Memory, refs: Table, ids: seq<Id>) returns (ok: bool, st: Stats)
    requires blobs.Valid()
    modifies blobs`blobs, blobs`nbytes
    ensures blobs.Valid() && ok
    ensures blobs.blobs == if blobs.closed then old(blobs.blobs)
                           else old(blobs.blobs) - (Dead(old(blobs.blobs), refs.counts) * Front(ids, |ids|))
    ensures Swept(st, old(blobs.Readable()), refs.counts, ids, |ids|)
  {
    hide Swept, Dead, Front, Tally, AfterVisit;
    st := Stats(0, 0, 0, 0, 0);
    ghost var all := blobs.Readable();
    SweptNone(all, refs.counts, ids);
    for i := 0 to |ids|
      invariant blobs.Valid()
      invariant blobs.Readable() == all - (Dead(all, refs.counts) * Front(ids, i))
      invariant blobs.closed ==> blobs.blobs == old(blobs.blobs)
      invariant Swept(st, all, refs.counts, ids, i)
    {
      SweptOneMore(st, all, refs.counts, ids, i);
      st := Visit(blobs, refs, false, ids[i], st);
      if blobs.closed { NothingDead(all); }
    }
    ok := true;
  }

  lemma NothingDead(blobs: map<Id, bytes>)
    requires blobs == map[]
    ensures forall gone: set<Id> :: blobs - gone == map[]
  {
  }

  // ---- Repair ----

  /** The chunks a collection would remove. */
  method Orphans(blobs: Memory, refs: Table) returns (ok: bool, out: seq<Id>)
    ensures ok == !blobs.closed
    ensures ok ==> Lists(out, Dead(blobs.blobs, refs.counts))
  {
    out := [];
    var ids;
    ok, ids := blobs.List();
    if !ok {
      return;
    }
    ghost var dead := Dead(blobs.blobs, refs.counts);
    for i := 0 to |ids|
      invariant Lists(out, dead * Front(ids, i))
    {
      NextListed(ids, blobs.blobs.Keys, i);
      assert dead * Front(ids, i + 1) == dead * Front(ids, i) + (dead * {ids[i]});
      var n := refs.Get(ids[i]);
      if n == 0 {
        out := out + [ids[i]];
      }
    }
    AllListed(ids, blobs.blobs.Keys);
    assert dead * Front(ids, |ids|) == dead;
  }

  /** Is every counted chunk in the backend, and can the backend be asked? */
  method AssertSafe(blobs: Memory, refs: Table) returns (safe: bool)
    requires refs.Valid()
    ensures safe <==> forall id :: Count(refs.counts, id) > 0 ==> id in blobs.Readable()
  {
    var ids := InSomeOrder(refs.counts.Keys);
    for i := 0 to |ids|
      invariant forall j :: 0 <= j < i ==> ids[j] in blobs.Readable()
    {
      if blobs.closed || ids[i] !in blobs.blobs {
        assert Count(refs.counts, ids[i]) > 0;
        return false;
      }
    }
    return true;
  }

  type Loader = Id -> Option<Manifest>

  /** The chunks the manifests of the listed objects name. */
  ghost function Reachable(load: Loader, objects: set<Id>): set<Id> {
    set o, i | o in objects && load(o).Some? && 0 <= i < |load(o).value.chunks| :: load(o).value.chunks[i].id
  }

  /** Counts after repair: what is reachable counts at least 1, every positive count stays. */
  ghost predicate Repaired(now: Counts, was: Counts, live: set<Id>) {
    forall id :: Count(now, id) == if Count(was, id) == 0 && id in live then 1 else Count(was, id)
  }

  /** A repair that did not get to its end: some reachable chunks have been raised from 0 to 1. */
  ghost predicate HalfRepaired(now: Counts, was: Counts, live: set<Id>) {
    forall id :: Count(now, id) == Count(was, id) || (Count(was, id) == 0 && Count(now, id) == 1 && id in live)
  }

  /** In numbers: a chunk that counted nothing counts 1 if a manifest that loads lists it, and nothing else
      changes. */
  lemma RepairedExact(now: Counts, was: Counts, load: Loader, objects: set<Id>, id: Id)
    requires Repaired(now, was, Reachable(load, objects))
    ensures Count(was, id) > 0 ==> Count(now, id) == Count(was, id)
    ensures Count(was, id) == 0 ==> Count(now, id) <= 1
    ensures Count(was, id) == 0 ==>
              (Count(now, id) == 1 <==>
                 exists o :: o in objects && load(o).Some? && exists e :: e in load(o).value.chunks && e.id == id)
  {
    if id in Reachable(load, objects) {
      var o, i :| o in objects && load(o).Some? && 0 <= i < |load(o).value.chunks| && load(o).value.chunks[i].id == id;
      assert load(o).value.chunks[i] in load(o).value.chunks;
    }
  }

  method MarkManifest(mf: Manifest, refs: Table) returns (ok: bool)
    requires refs.Valid()
    modifies refs`counts, refs`dirty, refs.j
    ensures refs.Valid() && (old(refs.JournalWorks()) ==> ok && refs.JournalWorks())
    ensures ok ==> Repaired(refs.counts, old(refs.counts), Front(ChunkIds(mf), |mf.chunks|))
    ensures HalfRepaired(refs.counts, old(refs.counts), Front(ChunkIds(mf), |mf.chunks|))
  {
    ghost var ids := ChunkIds(mf);
    for i := 0 to |mf.chunks|
      invariant refs.Valid() && (old(refs.JournalWorks()) ==> refs.JournalWorks())
      invariant Repaired(refs.counts, old(refs.counts), Front(ids, i))
      invariant Front(ids, i) <= Front(ids, |ids|)
    {
      var id := mf.chunks[i].id;
      FrontOneMore(ids, i);
      assert ids[i] in Front(ids, |ids|);
      var n := refs.Get(id);
      if n == 0 {
        ok := refs.Add(id, 1);
        if !ok {
          return false;
        }
      }
    }
    ok := true;
  }

  /** Marks every chunk of every indexed object as live. Goes through if every manifest loads and the
      journal can be written. */
  method MarkLive(idx: Index, load: Loader, refs: Table) returns (ok: bool)
    requires refs.Valid()
    modifies refs`counts, refs`dirty, refs.j
    ensures refs.Valid() && (old(refs.JournalWorks()) ==> refs.JournalWorks())
    ensures ok ==> forall o :: o in idx.objects ==> load(o).Some?
    ensures old(refs.JournalWorks()) && (forall o :: o in idx.objects ==> load(o).Some?) ==> ok
    ensures ok ==> Repaired(refs.counts, old(refs.counts), Reachable(load, idx.objects.Keys))
    ensures HalfRepaired(refs.counts, old(refs.counts), Reachable(load, idx.objects.Keys))
  {
    hide Repaired, HalfRepaired, Reachable, Front;
    var ids := idx.List();
    RepairedNone(refs.counts, load, ids);
    for i := 0 to |ids|
      invariant refs.Valid() && (old(refs.JournalWorks()) ==> refs.JournalWorks())
      invariant forall j :: 0 <= j < i ==> load(ids[j]).Some?
      invariant Repaired(refs.counts, old(refs.counts), Reachable(load, Front(ids, i)))
      invariant HalfRepaired(refs.counts, old(refs.counts), Reachable(load, idx.objects.Keys))
    {
      NextListed(ids, idx.objects.Keys, i);
      if load(ids[i]).None? {
        return false;
      }
      ReachableOneMore(load, Front(ids, i), ids[i]);
      ghost var before, chunks := refs.counts, Front(ChunkIds(load(ids[i]).value), |load(ids[i]).value.chunks|);
      ok := MarkManifest(load(ids[i]).value, refs);
      FrontReachable(load, idx.objects.Keys, ids[i]);
      HalfRepairedTwice(old(refs.counts), before, refs.counts, Reachable(load, idx.objects.Keys), chunks);
      if !ok {
        return false;
      }
      RepairedTwice(old(refs.counts), before, refs.counts, Reachable(load, Front(ids, i)), chunks);
    }
    AllListed(ids, idx.objects.Keys);
    return true;
  }

  lemma RepairedNone(counts: Counts, load: Loader, ids: seq<Id>)
    ensures Repaired(counts, counts, Reachable(load, Front(ids, 0)))
    ensures forall live :: HalfRepaired(counts, counts, live)
  {
  }

  lemma FrontReachable(load: Loader, objects: set<Id>, o: Id)
    requires o in objects && load(o).Some?
    ensures Front(ChunkIds(load(o).value), |load(o).value.chunks|) <= Reachable(load, objects)
  {
    ReachableOneMore(load, objects, o);
    assert objects + {o} == objects;
  }

  lemma HalfRepairedTwice(a: Counts, b: Counts, c: Counts, live: set<Id>, more: set<Id>)
    requires HalfRepaired(b, a, live) && HalfRepaired(c, b, more) && more <= live
    ensures HalfRepaired(c, a, live)
  {
  }

  lemma ReachableOneMore(load: Loader, objects: set<Id>, o: Id)
    requires load(o).Some?
    ensures Reachable(load, objects + {o})
        == Reachable(load, objects) + Front(ChunkIds(load(o).value), |load(o).value.chunks|)
  {
    var ids := ChunkIds(load(o).value);
    forall id | id in Front(ids, |ids|)
      ensures id in Reachable(load, objects + {o})
    {
      var j :| 0 <= j < |ids| && ids[j] == id;
      assert load(o).value.chunks[j].id == id;
    }
    forall id | id in Reachable(load, objects + {o})
      ensures id in Reachable(load, objects) + Front(ids, |ids|)
    {
      var q, i :| q in objects + {o} && load(q).Some? && 0 <= i < |load(q).value.chunks|
          && load(q).value.chunks[i].id == id;
      if q == o { assert ids[i] == id; }
    }
  }

  lemma RepairedTwice(a: Counts, b: Counts, c: Counts, live: set<Id>, more: set<Id>)
    requires Repaired(b, a, live) && Repaired(c, b, more)
    ensures Repaired(c, a, live + more)
  {
  }

  /** What collecting the chunks that are dead by now leaves of blobs, if now are repaired counts. */
  lemma RepairedLeft(blobs: map<Id, bytes>, was: Counts, now: Counts, load: Loader, objects: set<Id>)
    requires Repaired(now, was, Reachable(load, objects))
    ensures var left := blobs - Dead(blobs, now);
      && (forall id :: id in Reachable(load, objects) && id in blobs ==> id in left)
      && (forall id :: id in blobs && Count(was, id) > 0 ==> id in left)
      && Dead(left, now) == {} && Dead(blobs, now) == blobs.Keys - left.Keys
  {
  }

  lemma {:induction false} StillJoined(blobs: map<Id, bytes>, left: map<Id, bytes>, es: seq<Entry>)
    requires forall id :: id in left ==> id in blobs && left[id] == blobs[id]
    requires BlobReaders.Present(blobs, es) && forall i :: 0 <= i < |es| ==> es[i].id in left
    ensures BlobReaders.Present(left, es) && BlobReaders.Joined(left, es) == BlobReaders.Joined(blobs, es)
  {
    if es != [] {
      assert forall i :: 0 <= i < |es[1..]| ==> es[1..][i] == es[i + 1];
      StillJoined(blobs, left, es[1..]);
    }
  }

  /** Does every indexed object whose chunks were there read back as it did? */
  ghost predicate ReadsBack(load: Loader, objects: set<Id>, was: map<Id, bytes>, now: map<Id, bytes>) {
    forall o :: o in objects && load(o).Some? && BlobReaders.Present(was, load(o).value.chunks) ==>
      && BlobReaders.Present(now, load(o).value.chunks)
      && BlobReaders.Joined(now, load(o).value.chunks) == BlobReaders.Joined(was, load(o).value.chunks)
  }

  lemma RepairedReadsBack(blobs: map<Id, bytes>, was: Counts, now: Counts, load: Loader, objects: set<Id>)
    requires Repaired(now, was, Reachable(load, objects))
    ensures ReadsBack(load, objects, blobs, blobs - Dead(blobs, now))
  {
    var left := blobs - Dead(blobs, now);
    RepairedLeft(blobs, was, now, load, objects);
    hide Repaired;
    forall o | o in objects && load(o).Some? && BlobReaders.Present(blobs, load(o).value.chunks)
      ensures BlobReaders.Present(left, load(o).value.chunks)
      ensures BlobReaders.Joined(left, load(o).value.chunks) == BlobReaders.Joined(blobs, load(o).value.chunks)
    {
      var es := load(o).value.chunks;
      forall i | 0 <= i < |es|
        ensures es[i].id in left
      {
        assert es[i].id in Reachable(load, objects);
      }
      StillJoined(blobs, left, es);
    }
  }

  /** The statistics of a collection depend on the chunks and counts only. */
  lemma SameReport(a: Stats, b: Stats, blobs: map<Id, bytes>, counts: Counts)
    requires Reports(a, blobs, counts, blobs.Keys) && Reports(b, blobs, counts, blobs.Keys)
    ensures a == b
  {
  }

  /** Lists the orphans, looks what a collection would do, collects, and collects again. */
  method CollectTwice(blobs: Memory, refs: Table)
    returns (ok: bool, orphans: seq<Id>, dry: Stats, st: Stats, again: Stats)
    requires blobs.Valid()
    modifies blobs`blobs, blobs`nbytes
    ensures blobs.Valid() && ok == !blobs.closed
    ensures !ok ==> blobs.blobs == old(blobs.blobs)
    ensures ok ==> Lists(orphans, Dead(old(blobs.blobs), refs.counts))
    ensures ok ==> blobs.blobs == old(blobs.blobs) - Dead(old(blobs.blobs), refs.counts)
    ensures ok ==> dry == st && st.deleted == |orphans| && again.deleted == 0 && again.retained == |blobs.blobs|
  {
    hide Reports, Dead, Lists;
    ghost var all, counts := blobs.blobs, refs.counts;
    dry, st, again := Stats(0, 0, 0, 0, 0), Stats(0, 0, 0, 0, 0), Stats(0, 0, 0, 0, 0);
    ok, orphans := Orphans(blobs, refs);
    if !ok {
      return;
    }
    ok, dry := Run(blobs, refs, true);
    ok, st := Run(blobs, refs, false);
    SameReport(dry, st, all, counts);
    ReportAdds(st, all, counts);
    ListedOnce(orphans, Dead(all, counts));
    ghost var left := blobs.blobs;
    NoneDeadLeft(all, counts);
    ok, again := Run(blobs, refs, false);
    ReportAdds(again, left, counts);
  }

  lemma NoneDeadLeft(blobs: map<Id, bytes>, counts: Counts)
    ensures var left := blobs - Dead(blobs, counts);
      Dead(left, counts) == {} && left - Dead(left, counts) == left
  {
  }

  /** Repair and then collect, from counts that may have drifted in any way. What goes is exactly what was
      listed; a dry run foretells the numbers; no positive count changes; no chunk counted before the repair
      goes; every object whose chunks were there reads back as before; a second collection finds nothing. */
  method RepairThenCollect(idx: Index, load: Loader, blobs: Memory, refs: Table)
    returns (ok: bool, orphans: seq<Id>, dry: Stats, st: Stats, again: Stats)
    requires refs.Valid() && blobs.Valid()
    modifies refs`counts, refs`dirty, refs.j, blobs`blobs, blobs`nbytes
    ensures refs.Valid() && blobs.Valid()
    ensures old(refs.JournalWorks()) ==>
              (ok <==> !blobs.closed && forall o :: o in idx.objects ==> load(o).Some?)
    ensures !ok ==> blobs.blobs == old(blobs.blobs)
    ensures forall id :: Count(old(refs.counts), id) > 0 ==> Count(refs.counts, id) == Count(old(refs.counts), id)
    ensures ok ==> Lists(orphans, old(blobs.blobs).Keys - blobs.blobs.Keys)
    ensures ok ==> blobs.blobs == old(blobs.blobs) - Dead(old(blobs.blobs), refs.counts)
    ensures ok ==> dry == st && st.deleted == |orphans| && again.deleted == 0 && again.retained == |blobs.blobs|
    ensures ok ==> forall id :: id in old(blobs.blobs) && Count(old(refs.counts), id) > 0 ==> id in blobs.blobs
    ensures ok ==> ReadsBack(load, idx.objects.Keys, old(blobs.blobs), blobs.blobs)
  {
    hide Repaired, Reachable, ReadsBack, Dead, Lists;
    ghost var all, was := blobs.blobs, refs.counts;
    orphans, dry, st, again := [], Stats(0, 0, 0, 0, 0), Stats(0, 0, 0, 0, 0), Stats(0, 0, 0, 0, 0);
    ok := MarkLive(idx, load, refs);
    if !ok {
      return;
    }
    RepairedLeft(all, was, refs.counts, load, idx.objects.Keys);
    RepairedReadsBack(all, was, refs.counts, load, idx.objects.Keys);
    ok, orphans, dry, st, again := CollectTwice(blobs, refs);
  }
}
