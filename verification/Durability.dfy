/** The store on disk (store.go, put.go, delete.go): its operations, everything the disk holds on their way,
    and reopening. */
module Durability {
  import opened Bytes
  import opened Sums
  import opened Policy
  import opened Schemes
  import opened Manifests
  import opened Codec
  import opened Journals
  import opened Refcounts
  import opened Backends
  import opened Indexes
  import opened Holdings
  import opened Crashes
  import Collecting

  class DiskStore {
    const cfg: Config
    const blobs: Memory       // the chunk files
    const refs: Table
    const idx: Index
    const journal: Journal
    var raws: map<Id, bytes>  // the manifest files
    var indexFile: map<Id, Record>
    var refsFile: Counts
    ghost const known: iset<bytes>
    /** What the store answers for. */
    ghost var held: Held
    /** The records of the journal, and what there is of another one behind them. */
    ghost var pending: seq<Rec>
    ghost var torn: bytes
    /** Everything the disk has held since the current operation began. */
    ghost var past: iset<Disk>

    ghost function Now(): Kept
      reads this, blobs, refs, idx
    {
      Kept(blobs.blobs, refs.counts, idx.objects, raws)
    }

    ghost function OnDisk(): Disk
      reads this, blobs, journal
    {
      Disk(blobs.blobs, raws, indexFile, refsFile, journal.file)
    }

    ghost predicate Wired()
      reads this, blobs, refs, journal
    {
      && cfg.sc.Sound(known)
      && blobs.Valid() && !blobs.closed
      && refs.Valid() && refs.j == journal && journal.turns == [] && journal.crc == cfg.crc
    }

    /** The snapshot and the journal beside it make up the counts. */
    ghost predicate Tracked()
      reads this, refs, journal
    {
      && NoZeros(refsFile) && Grows(refsFile, pending, torn)
      && journal.file == Image(pending, cfg.crc) + torn
      && ApplyAll(refsFile, pending) == Ok(refs.counts)
    }

    ghost predicate Valid()
      reads this, blobs, refs, idx, journal
    {
      Wired() && Covers(cfg, known, held, Now()) && Tracked() && indexFile == idx.objects
    }

    /** No count, with what is pending, is within reach of its 64-bit limit. */
    ghost predicate Roomy()
      reads this, refs
    {
      forall id :: Count(refs.counts, id) + 2 * |pending| + 2 * MAX_CHUNKS < TWO64
    }

    /** Only increments are pending, and no half-written record: so it is after every operation that went
        through, and after a crash of one that was not a Delete and cut no record in two. */
    ghost predicate Tidy()
      reads this
    {
      Increments(pending) && torn == []
    }

    lemma Standing()
      requires Valid()
      ensures Safe(cfg, known, held, OnDisk())
    {
      hide Covers, MoreCounted, Grows, Image, ApplyAll, NoZeros, Safe;
      AsMany(refs.counts);
      SafeWith(cfg, known, held, Now(), refsFile, pending, torn);
    }

    lemma Clean()
      requires refs.Valid() && refsFile == refs.counts && pending == [] && torn == [] && journal.file == []
      ensures Tracked()
    {
      NoRecords(refs.counts, cfg.crc);
    }

    /** The parts of a store that is being opened: snapshots loaded, journal opened, not yet replayed. */
    constructor Load(d: Disk, blobs: Memory, cfg: Config, ghost known: iset<bytes>, ghost held: Held)
      requires blobs.blobs == d.blobs && NoZeros(d.refs)
      ensures this.blobs == blobs && this.cfg == cfg && this.known == known && this.held == held
      ensures OnDisk() == d && idx.objects == d.index && past == iset{d}
      ensures refs.Valid() && refs.counts == d.refs && refs.j == null
      ensures journal.file == d.journal && journal.crc == cfg.crc && journal.turns == []
      ensures fresh(refs) && fresh(idx) && fresh(journal)
    {
      this.cfg, this.blobs, this.known, this.held := cfg, blobs, known, held;
      refs := new Table();
      idx := new Index();
      journal := new Journal(d.journal, cfg.crc, []);
      raws, indexFile, refsFile := d.raws, d.index, d.refs;
      pending, torn, past := [], [], iset{d};
      new;
      idx.objects := d.index;
      refs.LoadMap(d.refs);
    }

    /** Saves the index, then the counts, then empties the journal. */
    method Persist()
      requires refs.j == journal && journal.turns == []
      modifies this`indexFile, this`refsFile, this`pending, this`torn, this`past, journal`file, journal`turns,
          refs`dirty
      ensures indexFile == idx.objects && refsFile == refs.counts && journal.file == [] && pending == [] && torn == []
      ensures past == old(past) + PersistDisks(old(OnDisk()), idx.objects, refs.counts)
      ensures OnDisk() in past && journal.turns == []
      ensures old(OnDisk()).(index := idx.objects) in past
      ensures old(OnDisk()).(index := idx.objects, refs := refs.counts) in past
    {
      indexFile := idx.objects;
      past := past + iset{OnDisk()};
      var snapshot := refs.Snapshot();
      refsFile := snapshot;
      past := past + iset{OnDisk()};
      var emptied := journal.Truncate();
      pending, torn := [], [];
      past := past + iset{OnDisk()};
      refs.MarkClean();
    }

    /** Persists tables that hold h beside a journal that has not grown. */
    method Commit(ghost h: Held)
      requires Wired() && Tracked() && Roomy() && Covers(cfg, known, h, Now())
      modifies this`held, this`indexFile, this`refsFile, this`pending, this`torn, this`past,
               journal`file, journal`turns, refs`dirty
      ensures Valid() && held == h && torn == [] && pending == []
      ensures past == old(past) + PersistDisks(old(OnDisk()), idx.objects, refs.counts)
      ensures forall d :: d in past ==> d in old(past) || Safe(cfg, known, h, d) || d == Window(old(journal.file))
      ensures Survives(cfg, known, h, Window(old(journal.file)))
          <==> Again(cfg.sc, h.contents, refs.counts, old(pending))
      ensures Safe(cfg, known, h, Window(old(journal.file))) <==> Survives(cfg, known, h, Window(old(journal.file)))
      ensures Window(old(journal.file)) in past && OnDisk() in past
    {
      hide Covers, Grows, Image, ApplyAll, NoZeros, Safe, Survives, Again, Lengths, Sum, Scheme.Sound, Roomy;
      RoomHere();
      PersistStates(cfg, known, h, Now(), OnDisk(), pending, torn);
      ghost var before := Now();
      held := h;
      Persist();
      assert Now() == before;
      Clean();
    }

    lemma Journalled()
      requires Valid()
      ensures journal.file == Image(pending, cfg.crc) + torn && |torn| < REC && ApplyAll(refsFile, pending).Ok?
    {
      hide Covers, Image, ApplyAll, NoZeros;
    }

    lemma RoomHere()
      requires Tracked() && Roomy()
      ensures Grows(refs.counts, pending, torn)
    {
      hide Image, ApplyAll, Replay;
    }

    /** The disk as it is, but with this journal not yet emptied: the state of persist between saving the
        counts and emptying the journal. */
    ghost function Window(file: bytes): Disk
      reads this, blobs, journal
    {
      OnDisk().(journal := file)
    }

    /** Writes the chunks of a content one by one, those that are not there already. An operation begins. */
    method StoreChunks(c: bytes)
      requires blobs.Valid() && !blobs.closed
      modifies this`past, blobs`blobs, blobs`nbytes
      ensures blobs.Valid() && blobs.blobs == Chunked(cfg.sc, old(blobs.blobs), c, |cfg.sc.Pieces(c)|)
      ensures past == ChunkDisks(cfg.sc, old(OnDisk()), c, |cfg.sc.Pieces(c)|)
    {
      hide Lengths, Sum, Chunked, ChunkDisks, Scheme.Pieces;
      ghost var d := OnDisk();
      var ps := cfg.sc.Pieces(c);
      OneMoreChunk(cfg.sc, d, c, 0);
      past := iset{OnDisk()};
      for i := 0 to |ps|
        invariant blobs.Valid() && !blobs.closed
        invariant blobs.blobs == Chunked(cfg.sc, d.blobs, c, i)
        invariant past == ChunkDisks(cfg.sc, d, c, i)
      {
        OneMoreChunk(cfg.sc, d, c, i + 1);
        var stored := blobs.Put(cfg.sc.chunkId(ps[i]), ps[i]);
        past := past + iset{OnDisk()};
      }
    }

    method WriteChunks(c: bytes)
      requires Valid() && c in known
      modifies this`past, blobs`blobs, blobs`nbytes
      ensures Valid() && ChunksPresent(cfg.sc, blobs.blobs, c)
      ensures blobs.blobs == Chunked(cfg.sc, old(blobs.blobs), c, |cfg.sc.Pieces(c)|)
      ensures past == ChunkDisks(cfg.sc, old(OnDisk()), c, |cfg.sc.Pieces(c)|)
      ensures forall d :: d in past ==> Safe(cfg, known, held, d)
    {
      hide Valid, Covers, Safe, Tracked, ChunksPresent, Scheme.Sound, Chunked, ChunkDisks, Scheme.Pieces;
      ChunkStates(c);
      StoreChunks(c);
      AfterChunks();
    }

    /** Every state of writing c's chunks is safe. */
    lemma ChunkStates(c: bytes)
      requires Valid() && c in known
      ensures blobs.Valid() && !blobs.closed
      ensures forall d :: d in ChunkDisks(cfg.sc, OnDisk(), c, |cfg.sc.Pieces(c)|) ==> Safe(cfg, known, held, d)
      ensures var n := |cfg.sc.Pieces(c)|;
        && Covers(cfg, known, held, Now().(blobs := Chunked(cfg.sc, blobs.blobs, c, n)))
        && ChunksPresent(cfg.sc, Chunked(cfg.sc, blobs.blobs, c, n), c)
    {
      hide Covers, MoreCounted, Grows, Image, ApplyAll, NoZeros, Safe, Chunked, ChunksPresent, Scheme.Sound,
        Scheme.Pieces;
      AsMany(refs.counts);
      forall n: nat | n <= |cfg.sc.Pieces(c)|
        ensures Safe(cfg, known, held, OnDisk().(blobs := Chunked(cfg.sc, blobs.blobs, c, n)))
      {
        ChunksAhead(cfg, known, held, Now(), c, n);
        SafeWith(cfg, known, held, Now().(blobs := Chunked(cfg.sc, blobs.blobs, c, n)), refsFile, pending, torn);
      }
      ChunksAhead(cfg, known, held, Now(), c, |cfg.sc.Pieces(c)|);
    }

    twostate lemma AfterChunks()
      requires old(Valid()) && blobs.Valid() && !blobs.closed
      requires unchanged(`held) && unchanged(`raws) && unchanged(`indexFile) && unchanged(`refsFile)
      requires unchanged(`pending) && unchanged(`torn) && unchanged(refs) && unchanged(idx) && unchanged(journal)
      requires Covers(cfg, known, held, old(Now()).(blobs := blobs.blobs))
      ensures Valid()
    {
      hide Covers, Grows, Image, ApplyAll, NoZeros, Lengths, Sum;
    }

    /** Writes a manifest file. */
    method WriteManifest(o: Id, raw: bytes)
      modifies this`raws, this`past
      ensures raws == old(raws)[o := raw] && past == old(past) + iset{OnDisk()}
    {
      raws := raws[o := raw];
      past := past + iset{OnDisk()};
    }

    /** Counts a content's chunks, record by record and byte by byte. */
    method CountAll(ids: seq<Id>)
      requires Wired() && forall id :: Count(refs.counts, id) + |ids| < TWO64
      modifies this`past, journal, refs`counts, refs`dirty
      ensures Wired() && Plus(refs.counts, old(refs.counts), ids)
      ensures journal.file == old(journal.file) + Image(Changes(INC, ids), cfg.crc)
      ensures past == old(past) + Torn(old(OnDisk()), journal.file)
    {
      hide Image, Changes, Plus, NoZeros, Lengths, Sum, Torn, Scheme.Sound;
      ghost var before := OnDisk();
      var counted, done := refs.AddMany(ids);
      assert ids[..|ids|] == ids;
      past := past + Torn(before, journal.file);
    }

    /** Takes a list of references back, record by record and byte by byte, as far as they are there. */
    method Uncount(ids: seq<Id>) returns (ok: bool, ghost done: nat)
      requires Wired()
      modifies this`past, journal, refs`counts, refs`dirty
      ensures Wired() && done <= |ids| && (ok <==> done == |ids|)
      ensures ok <==> forall id :: multiset(ids)[id] <= Count(old(refs.counts), id)
      ensures !ok ==> Count(refs.counts, ids[done]) == 0
      ensures Minus(refs.counts, old(refs.counts), ids[..done])
      ensures journal.file == old(journal.file) + Image(Changes(DEC, ids[..done]), cfg.crc)
      ensures past == old(past) + Torn(old(OnDisk()), journal.file)
    {
      hide Image, Changes, Minus, NoZeros, Lengths, Sum, Torn, Scheme.Sound;
      ghost var before := OnDisk();
      ok, done := refs.SubMany(ids);
      assert ok ==> ids[..|ids|] == ids;
      past := past + Torn(before, journal.file);
    }

    /** The use count of c's object. */
    function UseOf(c: bytes): nat
      reads this, idx
    {
      if cfg.sc.objectId(c) in idx.objects then idx.objects[cfg.sc.objectId(c)].useCount else 0
    }

    /** Index, manifests and counts after a Put of c. */
    twostate predicate Entered(c: bytes)
      reads this, refs, idx
    {
      var o := cfg.sc.objectId(c);
      if o in old(idx.objects) then
        && raws == old(raws) && refs.counts == old(refs.counts)
        && idx.objects == old(idx.objects)[o := OneMoreCopy(old(idx.objects)[o])]
      else
        && raws == old(raws)[o := RawOf(cfg, c)] && Plus(refs.counts, old(refs.counts), cfg.sc.Ids(c))
        && idx.objects == old(idx.objects)[o := RecordOf(cfg.sc, c, 1)]
    }

    /** A Put has found the object of c indexed, and c is not held: a crashed Delete had left it half removed.
        Now it is held exactly if that had left it whole. */
    twostate predicate Retried(c: bytes)
      reads this, blobs, refs, idx
    {
      UseOf(c) > 0 ==>
        var whole := Whole(cfg.sc, old(held), old(raws), old(refs.counts), c);
        && c in old(held.doomed)
        && (c in held.contents <==> whole)
        && (Covers(cfg, known, Revived(old(held), c, UseOf(c)), Now()) <==> whole)
    }

    /** One more copy of an object that is indexed already, its chunks written. */
    method EnterAgain(c: bytes)
      requires Valid() && Roomy() && c in known && cfg.sc.objectId(c) in idx.objects
      requires c in held.contents ==> held.contents[c] + 1 < TWO32
      requires ChunksPresent(cfg.sc, blobs.blobs, c)
      modifies this`held, this`indexFile, this`refsFile, this`pending, this`torn, this`past,
               journal`file, journal`turns, refs`dirty, idx
      ensures Valid() && torn == [] && pending == []
      ensures held == AfterPut(cfg.sc, old(held), raws, refs.counts, c, true, true, UseOf(c))
      ensures Entered(c) && (c !in old(held.contents) ==> Retried(c))
      ensures past == old(past) + PersistDisks(old(OnDisk()), idx.objects, refs.counts)
      ensures forall d :: d in past ==> d in old(past) || Safe(cfg, known, held, d) || d == Window(old(journal.file))
      ensures Survives(cfg, known, held, Window(old(journal.file)))
          <==> Again(cfg.sc, held.contents, refs.counts, old(pending))
      ensures Safe(cfg, known, held, Window(old(journal.file)))
          <==> Survives(cfg, known, held, Window(old(journal.file)))
      ensures OnDisk() in past
    {
      hide Covers, Grows, Image, ApplyAll, NoZeros, Safe, Survives, Again, Scheme.Sound, RecordOf, Increments,
        Lengths, Sum, Whole, ChunksPresent, Roomy;
      ghost var k, h := Now(), held;
      var o := cfg.sc.objectId(c);
      AgainCovers(cfg, known, held, k, c);
      var rec := idx.Get(o);
      idx.Put(OneMoreCopy(rec.value));
      Commit(AfterPut(cfg.sc, h, raws, refs.counts, c, true, true, OneMoreCopy(rec.value).useCount));
    }

    /** A first copy of c was entered: the states on the way, what they are safe for, and the window. */
    twostate predicate NewEntered(c: bytes)
      reads this, blobs, refs, idx, journal
    {
      var ids := cfg.sc.Ids(c);
      var window := Window(old(journal.file) + Image(Changes(INC, ids), cfg.crc));
      var states := NewDisks(cfg, old(OnDisk()), c, idx.objects, refs.counts);
      && c !in old(held.contents) && held == WithFirst(old(held), c) && torn == [] && pending == []
      && Entered(c) && past == old(past) + states && OnDisk() in past
      && Leaves(cfg, known, old(held), held, states, window, old(pending), old(torn), INC, ids)
      && (old(torn) == [] || ids == [] ==>
            && (Survives(cfg, known, held, window)
                <==> Again(cfg.sc, held.contents, refs.counts, old(pending) + Changes(INC, ids)))
            && (Safe(cfg, known, held, window) <==> Survives(cfg, known, held, window)))
      && (old(torn) != [] && ids != [] ==>
            Spoiled(window, old(pending), old(torn), Rec(INC, ids[0], 1), cfg.crc))
    }

    /** The first copy of an object whose chunks are written: manifest, then counts, then index. */
    method EnterFirst(c: bytes) returns (ok: bool)
      requires Valid() && Roomy()
      requires c in known && cfg.sc.objectId(c) !in idx.objects && ChunksPresent(cfg.sc, blobs.blobs, c)
      modifies this`held, this`raws, this`indexFile, this`refsFile, this`pending, this`torn, this`past,
               journal, refs`counts, refs`dirty, idx
      ensures Valid() && ok == (|cfg.sc.Pieces(c)| <= MAX_CHUNKS)
      ensures !ok ==> held == old(held) && past == old(past) && OnDisk() == old(OnDisk())
      ensures !ok ==> unchanged(`pending) && unchanged(`torn)
      ensures !ok ==> unchanged(refs`counts) && unchanged(idx) && unchanged(journal)
      ensures ok ==> NewEntered(c)
    {
      hide Valid, Scheme.Sound, EntriesFor, Encoded, WellFormed, Made, Covers, Scheme.Ids, Leaves, Survives, Safe,
        Again, Plus, Image, Changes, Torn, PersistDisks, NewDisks;
      var o := cfg.sc.objectId(c);
      var entries := EntriesFor(cfg.sc, cfg.sc.Pieces(c));
      var mf := Manifests.New(cfg.algo, cfg.sc.pol.avg, cfg.sc.pol.mode == Cdc, o, entries);
      assert mf == ManifestOf(cfg, c);
      hide ManifestOf;
      Knows();
      BuiltManifestValid(cfg, known, c);
      var raw := Encode(mf, cfg.crc);
      if raw.Failure? {
        return false;
      }
      VersionStays(cfg, c);
      EnterNew(c, o, mf, raw.value);
      ok := true;
    }

    lemma RoomFor(ids: seq<Id>)
      requires Roomy() && |ids| <= MAX_CHUNKS
      ensures forall id :: Count(refs.counts, id) + |ids| < TWO64
      ensures forall id :: Count(refs.counts, id) + 2 * |pending| + 2 * |ids| < TWO64
    {
    }

    lemma Knows()
      requires Valid()
      ensures cfg.sc.Sound(known)
    {
    }

    method EnterNew(ghost c: bytes, o: Id, mf: Manifest, raw: bytes)
      requires Valid() && Roomy() && c in known && |cfg.sc.Pieces(c)| <= MAX_CHUNKS
      requires o == cfg.sc.objectId(c) && o !in idx.objects && ChunksPresent(cfg.sc, blobs.blobs, c)
      requires mf == ManifestOf(cfg, c) && raw == RawOf(cfg, c)
      modifies this`held, this`raws, this`indexFile, this`refsFile, this`pending, this`torn, this`past,
               journal, refs`counts, refs`dirty, idx
      ensures Valid() && NewEntered(c)
    {
      hide Covers, Grows, Image, ApplyAll, NoZeros, Safe, Survives, Again, Scheme.Sound, RecordOf, RawOf, ManifestOf,
        Torn, PersistDisks, Leaves, Lengths, Sum, Plus, Scheme.Ids, Changes, Roomy, EntriesFor, ChunkIds,
        ChunksPresent;
      ghost var k, d, h, rs, t := Now(), OnDisk(), held, pending, torn;
      RoomFor(cfg.sc.Ids(c));
      ManifestIds(cfg, c);
      NewRecord(c, mf);
      IndexedIfHeld(cfg, known, h, k, c);
      EnterAll(o, mf, raw);
      held := WithFirst(h, c);
      NewStates(cfg, known, h, k, d, c, rs, t, idx.objects, refs.counts,
                Window(d.journal + Image(Changes(INC, cfg.sc.Ids(c)), cfg.crc)));
      Clean();
    }

    /** Writes a manifest, counts its chunks, enters its object and persists. */
    method EnterAll(o: Id, mf: Manifest, raw: bytes)
      requires Wired() && forall id :: Count(refs.counts, id) + |ChunkIds(mf)| < TWO64
      modifies this`raws, this`indexFile, this`refsFile, this`pending, this`torn, this`past,
               journal, refs`counts, refs`dirty, idx
      ensures Wired() && Plus(refs.counts, old(refs.counts), ChunkIds(mf))
      ensures idx.objects == old(idx.objects)[o := Record(o, 1, mf.totalSize, |mf.chunks| % TWO32)]
      ensures raws == old(raws)[o := raw] && indexFile == idx.objects && refsFile == refs.counts
      ensures journal.file == [] && pending == [] && torn == []
      ensures var listed := old(OnDisk()).(raws := raws);
        var file := listed.journal + Image(Changes(INC, ChunkIds(mf)), cfg.crc);
        past == old(past)
            + (iset{listed} + Torn(listed, file) + PersistDisks(listed.(journal := file), idx.objects, refs.counts))
      ensures OnDisk() in past
    {
      hide Image, Scheme.Sound, Torn, PersistDisks, Lengths, Sum, Plus, Changes, ChunkIds, NoZeros;
      WriteManifest(o, raw);
      CountAll(ChunkIds(mf));
      idx.Put(Record(o, 1, mf.totalSize, |mf.chunks| % TWO32));
      Persist();
    }

    lemma NewRecord(c: bytes, mf: Manifest)
      requires mf == ManifestOf(cfg, c) && |cfg.sc.Pieces(c)| <= MAX_CHUNKS
      ensures Record(cfg.sc.objectId(c), 1, mf.totalSize, |mf.chunks| % TWO32) == RecordOf(cfg.sc, c, 1)
    {
      hide EntriesFor;
      FirstRecord(cfg, c, EntriesFor(cfg.sc, cfg.sc.Pieces(c)));
      VersionStays(cfg, c);
    }

    /** Puts a content: its chunks, then under the object's lock its manifest, counts and index record. past
        is everything the disk holds on the way. A crash then leaves what was held before or after, but in
        two places: while counts are saved beside their journal, which goes well exactly under the condition
        given, and behind a half-written record of an earlier crash. ids are the chunks counted. An object that
        a crashed Delete has left half removed only gains a copy: see Retried for when it is held then. */
    method Put(c: bytes) returns (ok: bool, ghost ids: seq<Id>)
      requires Valid() && Roomy() && c in known
      requires c in held.contents ==> held.contents[c] + 1 < TWO32
      modifies this, journal, blobs`blobs, blobs`nbytes, refs`counts, refs`dirty, idx
      ensures Valid() && (ok ==> torn == [] && pending == [])
      ensures ok == (cfg.sc.objectId(c) in old(idx.objects) || |cfg.sc.Pieces(c)| <= MAX_CHUNKS)
      ensures ids == if ok && cfg.sc.objectId(c) !in old(idx.objects) then cfg.sc.Ids(c) else []
      ensures held == AfterPut(cfg.sc, old(held), old(raws), old(refs.counts), c,
                               cfg.sc.objectId(c) in old(idx.objects), ok, UseOf(c))
      ensures c !in old(held.contents) && cfg.sc.objectId(c) in old(idx.objects) ==> Retried(c)
      ensures ok ==> ChunksPresent(cfg.sc, blobs.blobs, c) && Entered(c)
      ensures !ok ==> raws == old(raws) && idx.objects == old(idx.objects) && refs.counts == old(refs.counts)
      ensures past == PutDisks(cfg, old(OnDisk()), c, blobs.blobs, cfg.sc.objectId(c) in old(idx.objects), ok,
                               idx.objects, refs.counts)
      ensures Leaves(cfg, known, old(held), held, past, Window(old(journal.file) + Image(Changes(INC, ids), cfg.crc)),
                     old(pending), old(torn), INC, ids)
      ensures ok ==> AtWindow(old(pending), old(torn), old(journal.file), INC, ids)
      ensures ok && ids != [] && !Intact(Mixed(old(torn), Rec(INC, ids[0], 1), cfg.crc), cfg.crc) ==>
                exists d :: d in past && Recovered(d, cfg.crc).Err?
      ensures old(Tidy()) ==> forall d :: d in past ==> Safe(cfg, known, old(held), d) || Safe(cfg, known, held, d)
      ensures old(CountsMatch(cfg.sc, held.contents, refs.counts)) ==> CountsMatch(cfg.sc, held.contents, refs.counts)
    {
      hide Valid, Covers, Image, Safe, Survives, Again, Scheme.Sound, Leaves, Plus, Torn, PersistDisks, ChunkDisks,
        Scheme.Ids, Scheme.Pieces, NewDisks, Chunked, CountsMatch, Changes, ChunksPresent, Roomy, Increments, Whole,
        Spoiled;
      WriteChunks(c);
      StillRoomy();
      Journalled();
      ghost var h, rs, t, written, counts := held, pending, torn, past, refs.counts;
      var rec := idx.Get(cfg.sc.objectId(c));
      ok := true;
      if rec.Some? {
        ids := [];
        EnterAgain(c);
        NothingJournalled(rs, old(journal.file), INC, cfg.crc);
        LeavesSafe(cfg, known, h, held, past, Window(old(journal.file)), rs, t, INC, ids);
      } else {
        ok := EnterFirst(c);
        ids := if ok then cfg.sc.Ids(c) else [];
        ghost var window := Window(old(journal.file) + Image(Changes(INC, ids), cfg.crc));
        LeavesSafe(cfg, known, h, held, written, window, rs, t, INC, ids);
        if ok {
          Behind(c, rs, t, old(OnDisk()).(blobs := blobs.blobs), idx.objects, refs.counts);
          LeavesBoth(cfg, known, h, held, written,
                     NewDisks(cfg, old(OnDisk()).(blobs := blobs.blobs), c, idx.objects, refs.counts),
                     window, rs, t, INC, ids);
        }
      }
      PutEnds(c, ok, rec.Some?, h, rs, t, counts, ids, old(journal.file), old(raws));
    }

    lemma Behind(c: bytes, rs: seq<Rec>, t: bytes, d: Disk, index: map<Id, Record>, counts: Counts)
      requires NewDisks(cfg, d, c, index, counts) <= past && |t| < REC && ApplyAll(d.refs, rs).Ok?
      requires d.journal == Image(rs, cfg.crc) + t
      ensures var ids := cfg.sc.Ids(c);
        ids != [] && !Intact(Mixed(t, Rec(INC, ids[0], 1), cfg.crc), cfg.crc) ==>
          exists e :: e in past && Recovered(e, cfg.crc).Err?
    {
      hide NewDisks, Intact, Mixed, Replay, ApplyAll, Image, Scheme.Ids;
      if cfg.sc.Ids(c) != [] {
        var e := PutBehindTorn(cfg, d, c, rs, t, index, counts);
      }
    }

    lemma PutEnds(c: bytes, ok: bool, indexed: bool, h: Held, rs: seq<Rec>, t: bytes, counts: Counts, ids: seq<Id>,
                  file: bytes, files: map<Id, bytes>)
      requires Valid() && held == AfterPut(cfg.sc, h, files, counts, c, indexed, ok, UseOf(c))
      requires var window := Window(file + Image(Changes(INC, ids), cfg.crc));
        && Leaves(cfg, known, h, held, past, window, rs, t, INC, ids)
        && (if ok then
              t == [] || ids == [] ==>
                && (Survives(cfg, known, held, window)
                    <==> Again(cfg.sc, held.contents, refs.counts, rs + Changes(INC, ids)))
                && (Safe(cfg, known, held, window) <==> Survives(cfg, known, held, window))
            else forall d :: d in past ==> Safe(cfg, known, held, d))
      requires !ok ==> refs.counts == counts
      requires ok && indexed ==> refs.counts == counts
      requires ok && !indexed ==> c !in h.contents && Plus(refs.counts, counts, cfg.sc.Ids(c))
      ensures Increments(rs) && t == [] ==>
                forall d :: d in past ==> Safe(cfg, known, h, d) || Safe(cfg, known, held, d)
      ensures CountsMatch(cfg.sc, h.contents, counts) ==> CountsMatch(cfg.sc, held.contents, refs.counts)
    {
      hide Covers, Image, Safe, Survives, Again, Scheme.Sound, Leaves, Plus, CountsMatch, Changes, Increments, Grows,
        ApplyAll, Lengths, Sum, NoZeros, Scheme.Ids, Whole;
      if ok && Increments(rs) && t == [] {
        TidySafe(cfg, known, h, held, Now(), past, Window(file + Image(Changes(INC, ids), cfg.crc)), rs, ids);
      }
      if ok && CountsMatch(cfg.sc, h.contents, counts) {
        MatchAfterPut(cfg.sc, h, files, c, indexed, UseOf(c), counts, refs.counts);
      }
    }

    twostate lemma StillRoomy()
      requires old(Roomy()) && unchanged(refs`counts) && unchanged(`pending)
      ensures Roomy()
    {
    }

    /** Removes dead chunk files in some order; any of them may be the last one removed. */
    method Sweep() returns (st: Collecting.Stats)
      requires Wired() && Covers(cfg, known, held, Now())
      modifies this`past, blobs`blobs, blobs`nbytes
      ensures Wired() && Covers(cfg, known, held, Now())
      ensures blobs.blobs == old(blobs.blobs) - Collecting.Dead(old(blobs.blobs), refs.counts)
      ensures Collecting.Reports(st, old(blobs.blobs), refs.counts, old(blobs.blobs).Keys)
      ensures past == old(past) + SweepDisks(old(OnDisk()), Collecting.Dead(old(blobs.blobs), refs.counts))
    {
      hide Covers, NoZeros, Scheme.Sound, Collecting.Reports, Collecting.Dead, SweepDisks, Lengths, Sum;
      ghost var k, d, dead := Now(), OnDisk(), Collecting.Dead(blobs.blobs, refs.counts);
      var ok;
      ok, st := Collecting.Run(blobs, refs, false);
      SweptCovers(cfg, known, held, k, dead);
      past := past + SweepDisks(d, dead);
    }

    /** A collection: removes the dead chunks and persists. It is possible after any crash that left the
        journal replayable, also one inside a Delete; it hurts nothing that is held, but for the window of
        persist under the condition given, and it rids the journal of decrements and of a half-written tail. */
    method Gc() returns (st: Collecting.Stats)
      requires Valid() && Roomy()
      modifies this, journal`file, journal`turns, blobs`blobs, blobs`nbytes, refs`dirty
      ensures Valid() && torn == [] && pending == [] && held == old(held) && raws == old(raws)
      ensures blobs.blobs == old(blobs.blobs) - Collecting.Dead(old(blobs.blobs), refs.counts)
      ensures Collecting.Reports(st, old(blobs.blobs), refs.counts, old(blobs.blobs).Keys)
      ensures past == SweepDisks(old(OnDisk()), Collecting.Dead(old(blobs.blobs), refs.counts))
                    + PersistDisks(old(OnDisk()).(blobs := blobs.blobs), idx.objects, refs.counts)
      ensures forall d :: d in past ==> Safe(cfg, known, held, d) || d == Window(old(journal.file))
      ensures Survives(cfg, known, held, Window(old(journal.file)))
         <==> Again(cfg.sc, held.contents, refs.counts, old(pending))
      ensures old(Increments(pending)) ==> forall d :: d in past ==> Safe(cfg, known, held, d)
      ensures OnDisk() in past
    {
      hide Covers, Image, ApplyAll, NoZeros, Safe, Survives, Again, Scheme.Sound, Collecting.Dead, Collecting.Reports,
        Grows, SweepDisks, PersistDisks, Lengths, Sum, Roomy;
      past := iset{};
      SweepStates();
      if Increments(pending) {
        GenuineCovered(cfg, known, held, Now());
        IncrementsAgain(cfg.sc, held.contents, refs.counts, pending);
      }
      hide Increments;
      st := Sweep();
      StillRoomy();
      Commit(held);
    }

    lemma SweepStates()
      requires Valid()
      ensures forall d :: d in SweepDisks(OnDisk(), Collecting.Dead(blobs.blobs, refs.counts)) ==>
                Safe(cfg, known, held, d)
    {
      hide Covers, Image, ApplyAll, NoZeros, Safe, Scheme.Sound, Collecting.Dead, Grows, Lengths, Sum;
      ghost var k, dead := Now(), Collecting.Dead(blobs.blobs, refs.counts);
      forall gone: set<Id> | gone <= dead
        ensures Safe(cfg, known, held, OnDisk().(blobs := k.blobs - gone))
      {
        SweptCovers(cfg, known, held, k, gone);
        AsMany(refs.counts);
        SafeWith(cfg, known, held, k.(blobs := k.blobs - gone), refsFile, pending, torn);
      }
    }

    /** What became of the window of a persist, when a journal that was file, with records rs and torn bytes of
        another, had grown by a batch: it survives exactly under the condition of WindowExact, or it holds a
        mixed frame. */
    ghost predicate AtWindow(rs: seq<Rec>, t: bytes, file: bytes, op: byte, ids: seq<Id>)
      reads this, blobs, refs, journal
    {
      var window := Window(file + Image(Changes(op, ids), cfg.crc));
      && (t == [] || ids == [] ==>
            (Survives(cfg, known, held, window) <==> Again(cfg.sc, held.contents, refs.counts, rs + Changes(op, ids))))
      && (t != [] && ids != [] ==> Spoiled(window, rs, t, Rec(op, ids[0], 1), cfg.crc))
    }

    /** Is the object listed and its content not held? That is what a Delete leaves that crashed before its
        persist. */
    ghost predicate HalfGone(o: Id)
      reads this, idx
    {
      o in idx.objects && exists c :: c in held.doomed && cfg.sc.objectId(c) == o
    }

    /** A Delete has taken references of a content back that a crashed one had left half removed, as far as
        they were there. It may have taken what others need: the store stays good for them exactly if enough
        is counted still. (k, d, h, rs and t are tables, disk and ghost state before.) */
    ghost predicate TookAgain(k: Kept, d: Disk, h: Held, rs: seq<Rec>, t: bytes, c: bytes, ok: bool, done: nat)
      reads this, blobs, refs, idx, journal
    {
      var ids := cfg.sc.Ids(c);
      var enough := Enough(cfg.sc, h.contents, refs.counts);
      && TookAll(k, d, iset{d}, cfg.sc.objectId(c), ids, ok, done)
      && held == (if ok then h.(doomed := h.doomed - {c}) else h)
      && (ok || t == [] || done == 0 ==> (Valid() <==> enough))
      && (enough ==>
            Leaves(cfg, known, h, h, past, Window(d.journal + Image(Changes(DEC, ids), cfg.crc)), rs, t, DEC, ids))
    }

    /** Index, manifests and counts after a Delete of a held content. */
    twostate predicate Removed(c: bytes)
      reads this, refs, idx
    {
      var o := cfg.sc.objectId(c);
      if old(held.contents)[c] > 1 then
        && raws == old(raws) && refs.counts == old(refs.counts)
        && o in old(idx.objects) && old(idx.objects)[o].useCount == old(held.contents)[c]
        && idx.objects == old(idx.objects)[o := FewerCopies(old(idx.objects)[o])]
      else
        && raws == old(raws) - {o} && Minus(refs.counts, old(refs.counts), cfg.sc.Ids(c))
        && idx.objects == old(idx.objects) - {o}
    }

    /** A Delete of an object that a crashed one had left half removed. */
    twostate predicate TriedAgain(o: Id, ok: bool, c: bytes, done: nat)
      requires o in old(idx.objects)
      reads this, blobs, refs, idx, journal
    {
      && c in old(held.doomed) && cfg.sc.objectId(c) == o
      && if o !in old(raws) then
           && !ok && done == 0 && Valid() && held == old(held)
           && past == iset{OnDisk()} && OnDisk() == old(OnDisk())
         else if old(idx.objects)[o].useCount > 1 then
           && ok && Valid() && held == old(held) && torn == [] && pending == [] && refs.counts == old(refs.counts)
           && idx.objects == old(idx.objects)[o := FewerCopies(old(idx.objects)[o])]
           && past == iset{old(OnDisk())} + PersistDisks(old(OnDisk()), idx.objects, refs.counts)
           && Leaves(cfg, known, old(held), held, past, Window(old(journal.file)), old(pending), old(torn), DEC, [])
           && (Survives(cfg, known, held, Window(old(journal.file)))
               <==> Again(cfg.sc, held.contents, refs.counts, old(pending)))
         else
           TookAgain(old(Now()), old(OnDisk()), old(held), old(pending), old(torn), c, ok, done)
    }

    /** Removes one copy of the object with this digest. past is everything the disk holds on the way. On the
        way to a last copy's removal every other content is safe, but in the two places named for Put. If the
        object is one that an earlier crash left half removed, see TriedAgain. */
    method Delete(o: Id) returns (ok: bool, ghost c: bytes, ghost ids: seq<Id>, ghost done: nat)
      requires Valid() && Roomy()
      modifies this, journal, refs`counts, refs`dirty, idx
      ensures old(HalfGone(o)) ==> TriedAgain(o, ok, c, done)
      ensures !old(HalfGone(o)) ==> Valid() && (ok ==> torn == [] && pending == [])
      ensures !old(HalfGone(o)) && !ok ==> held == old(held) && past == iset{OnDisk()} && OnDisk() == old(OnDisk())
      ensures !old(HalfGone(o)) && !ok ==> forall d :: d in held.contents ==> cfg.sc.objectId(d) != o
      ensures !old(HalfGone(o)) && ok ==>
                c in old(held.contents) && cfg.sc.objectId(c) == o && held == Without(old(held), c)
      ensures !old(HalfGone(o)) ==> ids == if ok && old(held.contents)[c] == 1 then cfg.sc.Ids(c) else []
      ensures !old(HalfGone(o)) && ok ==>
                past == iset{old(OnDisk())}
                      + if old(held.contents)[c] > 1 then PersistDisks(old(OnDisk()), idx.objects, refs.counts)
                        else LastDisks(cfg, old(OnDisk()), c, idx.objects, refs.counts)
      ensures !old(HalfGone(o)) && ok ==>
                Leaves(cfg, known, old(held), if old(held.contents)[c] > 1 then held else Dooming(old(held), c), past,
                       Window(old(journal.file) + Image(Changes(DEC, ids), cfg.crc)), old(pending), old(torn), DEC, ids)
      ensures !old(HalfGone(o)) && ok ==> Removed(c)
      ensures !old(HalfGone(o)) && ok ==> AtWindow(old(pending), old(torn), old(journal.file), DEC, ids)
      ensures !old(HalfGone(o)) && ok && old(held.contents)[c] > 1 && old(Increments(pending)) ==>
                forall d :: d in past ==> Safe(cfg, known, old(held), d) || Safe(cfg, known, held, d)
      ensures !old(HalfGone(o)) && old(CountsMatch(cfg.sc, held.contents, refs.counts)) ==>
                CountsMatch(cfg.sc, held.contents, refs.counts)
    {
      hide Covers, Image, ApplyAll, NoZeros, Safe, Survives, Again, Scheme.Sound, Readable, Meaning, ManifestOf,
        RecordOf, Leaves, Torn, PersistDisks, LastDisks, CountsMatch, Changes, Scheme.Ids, Grows, Increments, Lengths,
        Sum, Roomy, Enough, Minus, Spoiled, RawOf, AtWindow, TookAll, TookAgain;
      Standing();
      past := iset{OnDisk()};
      ids, c, done := [], [], 0;
      var rec := idx.Get(o);
      if rec.None? {
        Unlisted(cfg, known, held, Now(), o);
        return false, c, ids, done;
      }
      c := IndexedContent(cfg, known, held, Now(), o);
      if o !in raws {
        return false, c, ids, done;
      }
      ManifestComesBack(cfg, known, c);
      StillRoomy();
      var decoded := Decode(raws[o], cfg.crc);
      ghost var h, file := held, journal.file;
      if rec.value.useCount > 1 {
        FewerCovers(cfg, known, h, Now(), c);
        ok := true;
        DropCopy(if c in h.contents then Without(h, c) else h, o, rec.value);
        NothingAtWindow(old(pending), old(torn), file);
        if c in h.contents {
          MatchWithout(cfg.sc, h, c, refs.counts, refs.counts);
        }
      } else {
        ids := cfg.sc.Ids(c);
        ok, done := TakeBack(c, o, decoded.value);
      }
    }

    method DropCopy(ghost h: Held, o: Id, rec: Record)
      requires Valid() && Roomy() && past == iset{OnDisk()} && Safe(cfg, known, held, OnDisk())
      requires rec.id == o && rec.useCount > 1
      requires Covers(cfg, known, h, Now().(objects := idx.objects[o := FewerCopies(rec)]))
      modifies this`held, this`indexFile, this`refsFile, this`pending, this`torn, this`past,
               journal`file, journal`turns, refs`dirty, idx
      ensures Valid() && held == h && torn == [] && pending == []
      ensures idx.objects == old(idx.objects)[o := FewerCopies(rec)]
      ensures past == iset{old(OnDisk())} + PersistDisks(old(OnDisk()), idx.objects, refs.counts)
      ensures Leaves(cfg, known, old(held), held, past, Window(old(journal.file)), old(pending), old(torn), DEC, [])
      ensures Survives(cfg, known, held, Window(old(journal.file)))
         <==> Again(cfg.sc, held.contents, refs.counts, old(pending))
      ensures old(Increments(pending)) ==>
                forall d :: d in past ==> Safe(cfg, known, old(held), d) || Safe(cfg, known, held, d)
    {
      hide Covers, Grows, Image, ApplyAll, NoZeros, Safe, Survives, Again, Scheme.Sound, Leaves, PersistDisks,
        Increments, Lengths, Sum, Roomy, Scheme.Ids;
      ghost var was, rs, t, file := held, pending, torn, journal.file;
      idx.Put(FewerCopies(rec));
      Commit(h);
      LeavesSafe(cfg, known, was, held, past, Window(file), rs, t, DEC, []);
      AgainIfGrown(rs);
    }

    lemma NothingAtWindow(rs: seq<Rec>, t: bytes, file: bytes)
      requires Survives(cfg, known, held, Window(file)) <==> Again(cfg.sc, held.contents, refs.counts, rs)
      ensures AtWindow(rs, t, file, DEC, []) && Window(file + Image(Changes(DEC, []), cfg.crc)) == Window(file)
    {
      hide Survives, Again, Image, Changes;
      NothingJournalled(rs, file, DEC, cfg.crc);
    }

    /** Tables that hold what is held can take any increments again. */
    lemma AgainIfGrown(rs: seq<Rec>)
      requires Covers(cfg, known, held, Now())
      ensures Increments(rs) ==> Again(cfg.sc, held.contents, refs.counts, rs)
    {
      hide Covers, Again;
      if Increments(rs) {
        GenuineCovered(cfg, known, held, Now());
        IncrementsAgain(cfg.sc, held.contents, refs.counts, rs);
      }
    }

    /** The first done of ids were taken back, as many as were there, and if that was all of them, object o is
        out and the tables are persisted. */
    ghost predicate TookAll(k: Kept, d: Disk, before: iset<Disk>, o: Id, ids: seq<Id>, ok: bool, done: nat)
      reads this, blobs, refs, idx, journal
    {
      var file := d.journal + Image(Changes(DEC, ids), cfg.crc);
      var unlisted := d.(raws := raws, journal := file);
      && done <= |ids| && (ok <==> done == |ids|)
      && (ok <==> forall id :: multiset(ids)[id] <= Count(k.counts, id))
      && (!ok ==> Count(refs.counts, ids[done]) == 0)
      && Minus(refs.counts, k.counts, ids[..done])
      && blobs.blobs == k.blobs
      && (ok ==> idx.objects == k.objects - {o} && raws == k.raws - {o})
      && (ok ==> indexFile == idx.objects && refsFile == refs.counts && journal.file == [])
      && (ok ==> past == before + (Torn(d, file) + iset{unlisted} + PersistDisks(unlisted, idx.objects, refs.counts)))
      && (!ok ==> idx.objects == k.objects && raws == k.raws && indexFile == d.index && refsFile == d.refs)
      && (!ok ==> journal.file == d.journal + Image(Changes(DEC, ids[..done]), cfg.crc))
      && (!ok ==> past == before + Torn(d, journal.file))
    }

    /** Counts down, and if that went through: out of the index, then the manifest, then persist. */
    method TakeAll(o: Id, mf: Manifest) returns (ok: bool, ghost done: nat)
      requires Wired()
      modifies this`raws, this`indexFile, this`refsFile, this`pending, this`torn, this`past,
               journal, refs`counts, refs`dirty, idx
      ensures Wired() && TookAll(old(Now()), old(OnDisk()), old(past), o, ChunkIds(mf), ok, done)
      ensures if ok then pending == [] && torn == [] else unchanged(`pending) && unchanged(`torn)
    {
      hide Image, Scheme.Sound, Torn, PersistDisks, Lengths, Sum, Minus, Changes, ChunkIds, NoZeros;
      ok, done := Uncount(ChunkIds(mf));
      if !ok {
        return;
      }
      assert ChunkIds(mf)[..done] == ChunkIds(mf);
      idx.Delete(o);
      raws := raws - {o};
      past := past + iset{OnDisk()};
      Persist();
    }

    /** A Delete has taken the last copy of a held content. (The parameters are as for TookAgain.) */
    ghost predicate TakenOnce(k: Kept, d: Disk, h: Held, rs: seq<Rec>, t: bytes, c: bytes)
      reads this, blobs, refs, idx, journal
    {
      var ids := cfg.sc.Ids(c);
      var window := Window(d.journal + Image(Changes(DEC, ids), cfg.crc));
      && Valid() && held == Without(h, c) && torn == [] && pending == []
      && idx.objects == k.objects - {cfg.sc.objectId(c)} && raws == k.raws - {cfg.sc.objectId(c)}
      && Minus(refs.counts, k.counts, ids)
      && past == iset{d} + LastDisks(cfg, d, c, idx.objects, refs.counts)
      && Leaves(cfg, known, h, Dooming(h, c), past, window, rs, t, DEC, ids)
      && AtWindow(rs, t, d.journal, DEC, ids)
      && (CountsMatch(cfg.sc, h.contents, k.counts) ==> CountsMatch(cfg.sc, held.contents, refs.counts))
    }

    /** The values that made up a store which was good for h, with room for one more batch. */
    ghost predicate Stood(k: Kept, d: Disk, h: Held, rs: seq<Rec>, t: bytes, n: nat) {
      && cfg.sc.Sound(known) && Covers(cfg, known, h, k) && Safe(cfg, known, h, d)
      && d == Disk(k.blobs, k.raws, k.objects, d.refs, Image(rs, cfg.crc) + t)
      && NoZeros(k.counts) && NoZeros(d.refs) && Grows(d.refs, rs, t) && ApplyAll(d.refs, rs) == Ok(k.counts)
      && forall id :: Count(k.counts, id) + 2 * |rs| + 2 * n < TWO64
    }

    lemma Stands(n: nat)
      requires Valid() && Roomy() && Safe(cfg, known, held, OnDisk()) && n <= MAX_CHUNKS
      ensures Stood(Now(), OnDisk(), held, pending, torn, n)
    {
      hide Covers, Safe, Image, ApplyAll, Grows, Lengths, Sum, Scheme.Sound;
    }

    lemma NotBoth(c: bytes)
      requires Valid()
      ensures c in held.doomed ==> c !in held.contents
      ensures c in held.contents ==> forall id :: multiset(cfg.sc.Ids(c))[id] <= Count(refs.counts, id)
    {
      hide Genuine, Enough, HoldsAll, Listed, Scheme.Ids;
      if c in held.contents {
        OneCovered(cfg, known, held, Now(), c);
      }
    }

    lemma TakenHere(k: Kept, d: Disk, h: Held, rs: seq<Rec>, t: bytes, c: bytes)
      requires Stood(k, d, h, rs, t, |cfg.sc.Ids(c)|) && h.contents[c] == 1
      requires Wired() && TookAll(k, d, iset{d}, cfg.sc.objectId(c), cfg.sc.Ids(c), true, |cfg.sc.Ids(c)|)
      requires held == Without(h, c) && pending == [] && torn == []
      ensures TakenOnce(k, d, h, rs, t, c)
    {
      hide Covers, Image, ApplyAll, NoZeros, Safe, Survives, Again, Scheme.Sound, Changes, Minus, Grows, Leaves, Torn,
        PersistDisks, Lengths, Sum, Scheme.Ids, CountsMatch, Spoiled;
      var ids := cfg.sc.Ids(c);
      var window := Window(d.journal + Image(Changes(DEC, ids), cfg.crc));
      assert ids[..|ids|] == ids;
      NoneZero();
      LastStates(cfg, known, h, c, k, d, rs, t, refs.counts, window);
      TakenBack(cfg, known, h, Dooming(h, c), ids, d, rs, t, LastDisks(cfg, d, c, idx.objects, refs.counts), window);
      Clean();
      MatchWithout(cfg.sc, h, c, k.counts, refs.counts);
    }

    lemma TakenAgainHere(k: Kept, d: Disk, h: Held, rs: seq<Rec>, t: bytes, c: bytes)
      requires Stood(k, d, h, rs, t, |cfg.sc.Ids(c)|) && c in h.doomed
      requires Wired() && TookAll(k, d, iset{d}, cfg.sc.objectId(c), cfg.sc.Ids(c), true, |cfg.sc.Ids(c)|)
      requires held == h.(doomed := h.doomed - {c}) && pending == [] && torn == []
      ensures TookAgain(k, d, h, rs, t, c, true, |cfg.sc.Ids(c)|)
    {
      hide Covers, Image, ApplyAll, NoZeros, Safe, Scheme.Sound, Changes, Minus, Grows, Leaves, Torn, PersistDisks,
        Lengths, Sum, Scheme.Ids, Enough;
      var ids := cfg.sc.Ids(c);
      var window := Window(d.journal + Image(Changes(DEC, ids), cfg.crc));
      assert ids[..|ids|] == ids;
      NoneZero();
      Retaken(cfg, known, h, c, k, d, rs, t, refs.counts, window);
      Clean();
    }

    lemma TakenInPart(k: Kept, d: Disk, h: Held, rs: seq<Rec>, t: bytes, c: bytes, done: nat)
      requires Stood(k, d, h, rs, t, |cfg.sc.Ids(c)|) && c in h.doomed && indexFile == idx.objects
      requires Wired() && TookAll(k, d, iset{d}, cfg.sc.objectId(c), cfg.sc.Ids(c), false, done)
      requires held == h && pending == (if t == [] then rs + Changes(DEC, cfg.sc.Ids(c)[..done]) else rs) && torn == t
      ensures TookAgain(k, d, h, rs, t, c, false, done)
    {
      hide Covers, Image, ApplyAll, NoZeros, Safe, Scheme.Sound, Changes, Minus, Grows, Leaves, Torn, PersistDisks,
        Lengths, Sum, Scheme.Ids, Enough;
      var ids := cfg.sc.Ids(c);
      var window := Window(d.journal + Image(Changes(DEC, ids), cfg.crc));
      NoneZero();
      RetakenPart(cfg, known, h, c, k, d, rs, t, ids, done, refs.counts, window);
      PartTracked(d.refs, rs, t, k.counts, ids[..done], refs.counts, cfg.crc);
      NothingChanged(ids, done);
    }

    lemma NothingChanged(ids: seq<Id>, n: nat)
      requires n <= |ids|
      ensures n == 0 ==> ids[..n] == [] && Changes(DEC, ids[..n]) == []
    {
    }

    /** The last copy: of a content that is held, or of one that a crashed Delete has left half removed. */
    method TakeBack(ghost c: bytes, o: Id, mf: Manifest) returns (ok: bool, ghost done: nat)
      requires Valid() && Roomy() && past == iset{OnDisk()} && Safe(cfg, known, held, OnDisk())
      requires c in held.contents ==> held.contents[c] == 1
      requires c in held.contents || c in held.doomed
      requires o == cfg.sc.objectId(c) && mf == ManifestOf(cfg, c) && |cfg.sc.Ids(c)| <= MAX_CHUNKS
      modifies this`held, this`raws, this`indexFile, this`refsFile, this`pending, this`torn, this`past,
               journal, refs`counts, refs`dirty, idx
      ensures c in old(held.doomed) ==>
                TookAgain(old(Now()), old(OnDisk()), old(held), old(pending), old(torn), c, ok, done)
      ensures c in old(held.contents) ==>
                ok && TakenOnce(old(Now()), old(OnDisk()), old(held), old(pending), old(torn), c)
    {
      hide Covers, Image, ApplyAll, NoZeros, Safe, Scheme.Sound, ManifestOf, Changes, Minus, Grows, Torn,
        PersistDisks, Lengths, Sum, Scheme.Ids, CountsMatch, Roomy, Enough, ChunkIds, Stood, TakenOnce, TookAgain;
      ghost var k, d, h, rs, t, ids := Now(), OnDisk(), held, pending, torn, cfg.sc.Ids(c);
      ManifestIds(cfg, c);
      NotBoth(c);
      Stands(|ids|);
      ok, done := TakeAll(o, mf);
      if c in h.contents {
        held := Without(h, c);
        TakenHere(k, d, h, rs, t, c);
      } else if ok {
        held := h.(doomed := h.doomed - {c});
        TakenAgainHere(k, d, h, rs, t, c);
      } else {
        if t == [] {
          pending := rs + Changes(DEC, ids[..done]);
        }
        TakenInPart(k, d, h, rs, t, c, done);
      }
    }

    lemma NoneZero()
      requires Wired()
      ensures NoZeros(refs.counts)
    {
    }
  }

  lemma Unlisted(cfg: Config, known: iset<bytes>, h: Held, k: Kept, o: Id)
    requires Covers(cfg, known, h, k) && o !in k.objects
    ensures forall c :: c in h.contents ==> cfg.sc.objectId(c) != o
  {
    hide Listed, Genuine, Enough;
    forall c | c in h.contents
      ensures cfg.sc.objectId(c) != o
    {
      OneHeld(cfg, known, h.contents, k, c);
    }
  }

  lemma ContentListed(cfg: Config, known: iset<bytes>, h: Held, k: Kept, o: Id) returns (c: bytes)
    requires cfg.sc.Sound(known) && Covers(cfg, known, h, k) && o in k.objects
    ensures c in known && cfg.sc.objectId(c) == o && (c in h.contents || c in h.doomed)
    ensures (exists d :: d in h.doomed && cfg.sc.objectId(d) == o) <==> c in h.doomed
    ensures c in h.doomed ==> c !in h.contents
    ensures forall d :: d in known && cfg.sc.objectId(d) == o ==> d == c
  {
    hide Genuine, Enough, HoldsAll, Describes;
    c := cfg.sc.ContentOf(known, o);
  }

  /** The content an indexed object stands for: it is held, as often as the record says, or doomed; its
      manifest, if it is there, reads back. */
  lemma IndexedContent(cfg: Config, known: iset<bytes>, h: Held, k: Kept, o: Id) returns (c: bytes)
    requires cfg.sc.Sound(known) && Covers(cfg, known, h, k) && o in k.objects
    ensures c in known && cfg.sc.objectId(c) == o && |cfg.sc.Ids(c)| <= MAX_CHUNKS && (c in h.contents || c in h.doomed)
    ensures k.objects[o] == RecordOf(cfg.sc, c, k.objects[o].useCount) && k.objects[o].id == o
    ensures c in h.contents ==> o in k.raws && k.objects[o].useCount == h.contents[c]
    ensures o in k.raws ==> Readable(k.raws[o], cfg.crc) && Meaning(k.raws[o], cfg.crc) == ManifestOf(cfg, c)
    ensures (exists d :: d in h.doomed && cfg.sc.objectId(d) == o) <==> c in h.doomed
    ensures c in h.doomed ==> c !in h.contents
    ensures forall d :: d in h.contents && cfg.sc.objectId(d) == o ==> d == c
  {
    hide Genuine, RawOf, ChunksPresent, Enough, Readable, Meaning, ManifestOf, Listed, HoldsAll;
    c := ContentListed(cfg, known, h, k, o);
    if c in h.contents {
      OneHeld(cfg, known, h.contents, k, c);
    }
    forall d | d in h.contents
      ensures d in known
    {
      OneHeld(cfg, known, h.contents, k, d);
    }
    ListedOne(cfg, known, h, k.objects, k.raws, c);
    ManifestComesBack(cfg, known, c);
  }

  lemma IndexedIfHeld(cfg: Config, known: iset<bytes>, h: Held, k: Kept, c: bytes)
    requires Covers(cfg, known, h, k) && cfg.sc.objectId(c) !in k.objects
    ensures c !in h.contents
  {
    hide Listed, Genuine, Enough;
    if c in h.contents {
      OneHeld(cfg, known, h.contents, k, c);
    }
  }

  /** Opens what is on the disk: loads the snapshots and replays the journal. It fails exactly when the
      replay does; it finds whatever survives, and from a safe disk the store can go on. */
  method Open(d: Disk, blobs: Memory, cfg: Config, ghost known: iset<bytes>, ghost held: Held) returns (s: DiskStore?)
    requires cfg.sc.Sound(known) && blobs.Valid() && !blobs.closed && blobs.blobs == d.blobs && NoZeros(d.refs)
    ensures s != null <==> Recovered(d, cfg.crc).Ok?
    ensures s != null ==> fresh(s) && fresh(s.refs) && fresh(s.idx) && fresh(s.journal) && s.blobs == blobs
    ensures s != null ==> s.cfg == cfg && s.known == known && s.held == held && s.OnDisk() == d
    ensures s != null ==> s.refs.counts == Recovered(d, cfg.crc).counts
    ensures Survives(cfg, known, held, d) ==> s != null && s.Wired() && Covers(cfg, known, held, s.Now())
    ensures Safe(cfg, known, held, d) ==> s != null && s.Valid()
  {
    hide Covers, Grows, Replay, Image, ApplyAll, NoZeros, Growing;
    s := new DiskStore.Load(d, blobs, cfg, known, held);
    var fault := s.journal.ReplayInto(s.refs);
    if fault != Fine {
      return null;
    }
    s.refs.AttachJournal(s.journal);
    if Growing(d, cfg.crc) {
      ghost var rs, torn := SplitJournal(d, cfg.crc);
      s.pending, s.torn := rs, torn;
    }
  }

  lemma SplitJournal(d: Disk, crc: Crc) returns (rs: seq<Rec>, torn: bytes)
    requires Growing(d, crc)
    ensures Grows(d.refs, rs, torn) && d.journal == Image(rs, crc) + torn
    ensures Recovered(d, crc) == ApplyAll(d.refs, rs)
  {
    rs, torn :| Grows(d.refs, rs, torn) && d.journal == Image(rs, crc) + torn;
    ReplayTorn(d.refs, rs, torn, crc);
  }

  /** A collection right after reopening, to its end: everything that survived is there and stays, whatever
      else a crash has left: chunks, manifests or counts to spare, a half-written record, an object half
      removed. A crash on the way is safe again, but for the window of persist: rs are the journal's
      records, and when that window goes well is said in terms of them. */
  method RecoverAndCollect(d: Disk, blobs: Memory, cfg: Config, ghost known: iset<bytes>, ghost held: Held)
    returns (s: DiskStore?, st: Collecting.Stats, ghost rs: seq<Rec>, ghost window: Disk)
    requires cfg.sc.Sound(known) && blobs.Valid() && !blobs.closed && blobs.blobs == d.blobs
    requires Safe(cfg, known, held, d)
    requires forall id :: Count(Recovered(d, cfg.crc).counts, id) + 2 * |d.journal| + 2 * MAX_CHUNKS < TWO64
    modifies blobs
    ensures s != null && s.blobs == blobs && s.cfg == cfg && s.known == known
    ensures s.Valid() && s.held == held && s.pending == [] && s.torn == []
    ensures forall c :: c in held.contents ==> HoldsOne(cfg, known, s.Now(), c, held.contents[c])
    ensures forall id :: id in blobs.blobs ==> id in d.blobs && Count(s.refs.counts, id) > 0
    ensures Safe(cfg, known, held, s.OnDisk()) && s.OnDisk() in s.past
    ensures exists torn :: Grows(d.refs, rs, torn) && d.journal == Image(rs, cfg.crc) + torn
    ensures window == s.OnDisk().(journal := d.journal)
    ensures forall e :: e in s.past ==> Safe(cfg, known, held, e) || e == window
    ensures Survives(cfg, known, held, window) <==> Again(cfg.sc, held.contents, s.refs.counts, rs)
    ensures Increments(rs) ==> forall e :: e in s.past ==> Safe(cfg, known, held, e)
  {
    hide Covers, Genuine, Enough, Listed, NoZeros, Replay, HoldsOne, Safe, Survives, Again, Image, Grows, ApplyAll,
      Increments, SweepDisks, PersistDisks, Lengths, Sum;
    SafeSurvives(cfg, known, held, d);
    s := Open(d, blobs, cfg, known, held);
    rs := s.pending;
    JournalLong(rs, s.torn, d.journal, cfg.crc);
    st := s.Gc();
    window := s.Window(d.journal);
    s.Standing();
    AllHeld(cfg, known, held, s.Now());
  }

  lemma SafeSurvives(cfg: Config, known: iset<bytes>, h: Held, d: Disk)
    requires Safe(cfg, known, h, d)
    ensures NoZeros(d.refs) && Recovered(d, cfg.crc).Ok?
  {
  }

  lemma JournalLong(rs: seq<Rec>, torn: bytes, file: bytes, crc: Crc)
    requires file == Image(rs, crc) + torn
    ensures |rs| <= |file|
  {
  }

  lemma AllHeld(cfg: Config, known: iset<bytes>, h: Held, k: Kept)
    requires Covers(cfg, known, h, k)
    ensures forall c :: c in h.contents ==> HoldsOne(cfg, known, k, c, h.contents[c])
  {
  }
}
