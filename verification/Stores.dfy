/** The sequential store over the memory backend (put.go, delete.go, get.go, mem.go, stats.go, verify.go):
    to its callers it is a multiset of byte strings. */
module Stores {
  import opened Bytes
  import opened Policy
  import opened Boundary
  import opened Schemes
  import opened Readers
  import opened Splitting
  import opened Manifests
  import opened Codec
  import opened Journals
  import opened Refcounts
  import opened Backends
  import opened Indexes
  import opened Holdings
  import Collecting
  import Verifying
  import BlobReaders
  import Conservation
  import opened Sums

  datatype StoreError =
    | StoreClosed | Missing | Invalid | Incomplete | Corrupt | ReadFailed(st: Status)
    | BadManifestBytes(f: Manifests.Fault)
    | BackendFailed | CountFailed | VerifyFailed

  datatype Answer<+T> = Good(value: T) | Refused(error: StoreError)

  /** Manifests kept in memory (mem.go). */
  class ManifestMap {
    var raws: map<Id, bytes>

    constructor ()
      ensures raws == map[]
    {
      raws := map[];
    }
  }

  class Store {
    const cfg: Config
    const autoGc: bool
    const blobs: Memory
    const refs: Table
    const idx: Index
    const mem: ManifestMap
    var closed: bool
    ghost const known: iset<bytes>
    ghost var contents: multiset<bytes>

    ghost function Now(): Kept
      reads blobs, refs, idx, mem
    {
      Kept(blobs.blobs, refs.counts, idx.objects, mem.raws)
    }

    ghost predicate Valid()
      reads this, blobs, refs, idx, mem
    {
      && cfg.sc.Sound(known)
      && blobs.Valid() && refs.Valid() && refs.j == null && blobs.closed == closed
      && Holds(cfg, known, contents, Now())
    }

    constructor OpenMemory(cfg: Config, autoGc: bool, ghost known: iset<bytes>)
      requires cfg.sc.Sound(known)
      ensures Valid() && !closed && contents == multiset{}
      ensures this.cfg == cfg && this.known == known && this.autoGc == autoGc
      ensures fresh(blobs) && fresh(refs) && fresh(idx) && fresh(mem)
    {
      this.cfg := cfg;
      this.autoGc := autoGc;
      this.known := known;
      blobs := new Memory();
      refs := new Table();
      idx := new Index();
      mem := new ManifestMap();
      closed, contents := false, multiset{};
      new;
      HoldsNothing(cfg, known);
    }

    /** Stores one chunk, unless it is there already. */
    method WriteChunk(p: bytes) returns (cid: Id)
      requires Valid() && !closed && p in known
      modifies blobs`blobs, blobs`nbytes
      ensures Valid() && cid == cfg.sc.chunkId(p) && cid in blobs.blobs
      ensures blobs.blobs.Keys == old(blobs.blobs).Keys + {cid}
      ensures forall id :: id in old(blobs.blobs) ==> id in blobs.blobs && blobs.blobs[id] == old(blobs.blobs)[id]
    {
      hide HoldsAll, OnlyHeld, CountsMatch, Scheme.Sound;
      ghost var before := Now();
      cid := cfg.sc.chunkId(p);
      var ok := blobs.Put(cid, p);
      MoreChunks(cfg, known, contents, before, blobs.blobs);
      assert Now() == before.(blobs := blobs.blobs);
    }

    /** The pieces still to come from sp, and are they known? */
    ghost predicate Coming(sp: Splitter, rest: seq<bytes>)
      reads this, sp, sp.r, sp.gear
    {
      && sp.Valid() && sp.Drained() && sp.err == Status.Ok && sp.pol == cfg.sc.pol && sp.gear.table == cfg.sc.table
      && rest == Delivered(sp.pol, sp.gear.table, sp.Rest(), sp.r.end)
      && forall i :: 0 <= i < |rest| ==> rest[i] in known
    }

    /** One round of Put's loop. */
    method WriteNext(sp: Splitter, ghost got: seq<bytes>, entries: seq<Entry>, obj: bytes, ghost rest: seq<bytes>)
      returns (res: NextResult, entries': seq<Entry>, obj': bytes)
      requires Valid() && !closed && Coming(sp, rest) && Written(cfg.sc, blobs.blobs, got, entries, obj, sp.offset)
      modifies sp, sp.r, sp.gear, blobs`blobs, blobs`nbytes
      ensures Valid() && blobs.closed == old(blobs.closed)
      ensures forall id :: id in old(blobs.blobs) ==> id in blobs.blobs && blobs.blobs[id] == old(blobs.blobs)[id]
      ensures blobs.blobs.Keys == old(blobs.blobs).Keys + if res.Got? then {cfg.sc.chunkId(res.piece.data)} else {}
      ensures res.Done? ==> res.why == sp.r.end && rest == [] && entries' == entries && obj' == obj
      ensures res.Done? ==> exists offset :: Written(cfg.sc, blobs.blobs, got, entries, obj, offset)
      ensures res.Got? ==>
        && rest != [] && rest[0] == res.piece.data && Coming(sp, rest[1..]) && |sp.Rest()| < old(|sp.Rest()|)
        && Written(cfg.sc, blobs.blobs, got + [rest[0]], entries', obj', sp.offset)
    {
      hide Delivered, FirstCut, CutAt, Holds, Scheme.Sound, Written, EntriesFor, Lengths, Sum, NoZeros;
      ghost var s := sp.Rest();
      res := sp.Next();
      sp.OneStep(s, res);
      entries', obj' := entries, obj;
      if res.Got? {
        var p := res.piece;
        assert rest[0] == p.data;
        ghost var before := blobs.blobs;
        var cid := WriteChunk(p.data);
        WrittenMore(cfg.sc, before, blobs.blobs, got, entries, obj, p);
        entries' := entries + [Entry(cid, |p.data| % TWO32, p.offset)];
        obj' := obj + p.data;
      }
    }

    /** Put's loop: every piece is hashed, stored and noted, until the reader ends. */
    method WriteChunks(sp: Splitter) returns (entries: seq<Entry>, obj: bytes, st: Status)
      requires Valid() && !closed && sp.offset == 0
      requires Coming(sp, Delivered(cfg.sc.pol, cfg.sc.table, sp.Rest(), sp.r.end))
      modifies sp, sp.r, sp.gear, blobs`blobs, blobs`nbytes
      ensures Valid()
      ensures st == sp.r.end
      ensures blobs.blobs.Keys
           == old(blobs.blobs).Keys
              + IdsOf(cfg.sc, Delivered(cfg.sc.pol, cfg.sc.table, old(sp.Rest()), sp.r.end))
      ensures forall id :: id in old(blobs.blobs) ==> id in blobs.blobs && blobs.blobs[id] == old(blobs.blobs)[id]
      ensures st == Eof ==> obj == old(sp.Rest()) && entries == EntriesFor(cfg.sc, cfg.sc.Pieces(obj))
      ensures st == Eof ==> ChunksPresent(cfg.sc, blobs.blobs, obj)
    {
      hide Delivered, Holds, Scheme.Sound, Written, EntriesFor, Coming, IdsOf;
      ghost var all := Delivered(cfg.sc.pol, cfg.sc.table, sp.Rest(), sp.r.end);
      ghost var n := 0;
      entries, obj := [], [];
      NothingWritten(cfg.sc, blobs.blobs);
      NoIds(cfg.sc);
      assert all[..0] == [];
      while true
        invariant Valid() && !closed && n <= |all|
        invariant Coming(sp, all[n..])
        invariant blobs.blobs.Keys == old(blobs.blobs).Keys + IdsOf(cfg.sc, all[..n])
        invariant Written(cfg.sc, blobs.blobs, all[..n], entries, obj, sp.offset)
        invariant forall id :: id in old(blobs.blobs) ==> id in blobs.blobs && blobs.blobs[id] == old(blobs.blobs)[id]
        decreases |sp.Rest()|
      {
        var res;
        res, entries, obj := WriteNext(sp, all[..n], entries, obj, all[n..]);
        if res.Done? {
          st := res.why;
          assert all[..n] == all;
          if st == Eof {
            ghost var offset :| Written(cfg.sc, blobs.blobs, all, entries, obj, offset);
            AllWritten(cfg.sc, blobs.blobs, old(sp.Rest()), entries, obj, offset);
          }
          return;
        }
        assert all[n..][1..] == all[n + 1..] && all[..n] + [all[n..][0]] == all[..n + 1];
        OneMoreId(cfg.sc, all[..n], all[n]);
        n := n + 1;
      }
    }

    /** No reference count is within reach of its 64-bit limit. */
    ghost predicate Roomy()
      reads refs
    {
      forall id :: Count(refs.counts, id) + MAX_CHUNKS < TWO64
    }

    /** Does the reader deliver known contents, and is there room for one more copy of them? */
    ghost predicate Welcome(r: Reader)
      reads this, r
    {
      && r.Valid()
      && (r.end == Eof ==> r.Rest() in known && contents[r.Rest()] + 1 < TWO32)
      && forall i :: 0 <= i < |Delivered(cfg.sc.pol, cfg.sc.table, r.Rest(), r.end)| ==>
           Delivered(cfg.sc.pol, cfg.sc.table, r.Rest(), r.end)[i] in known
    }

    /** Visible state: what any query can tell, apart from unreferenced chunks. */
    twostate predicate NothingVisibleChanged()
      reads this, refs, idx, mem
    {
      contents == old(contents) && refs.counts == old(refs.counts)
      && idx.objects == old(idx.objects) && mem.raws == old(mem.raws)
    }

    /** Splits the reader's bytes, stores the chunks, writes the manifest and enters the object; content
        that is there already only gains a copy. A Put that fails leaves everything visible as it was. */
    method Put(r: Reader?) returns (res: Answer<Id>)
      requires Valid() && Roomy() && (r != null ==> Welcome(r))
      modifies this`contents, blobs`blobs, blobs`nbytes, refs`counts, refs`dirty, idx, mem, r
      ensures Valid()
      ensures closed ==> res == Refused(StoreClosed)
      ensures !closed && r == null ==> res == Refused(Invalid)
      ensures !closed && r != null && r.end != Eof ==> res == Refused(ReadFailed(r.end))
      ensures !closed && r != null && r.end == Eof && |cfg.sc.Pieces(old(r.Rest()))| <= MAX_CHUNKS ==>
                res == Good(cfg.sc.objectId(old(r.Rest()))) && contents == old(contents) + multiset{old(r.Rest())}
      ensures !closed && r != null && r.end == Eof && |cfg.sc.Pieces(old(r.Rest()))| > MAX_CHUNKS ==>
                res == Refused(BadManifestBytes(TooManyChunks))
      ensures res.Refused? ==> NothingVisibleChanged()
      ensures closed || r == null ==> blobs.blobs == old(blobs.blobs)
      ensures !closed && r != null ==>
                blobs.blobs.Keys
                == old(blobs.blobs).Keys
                   + IdsOf(cfg.sc, Delivered(cfg.sc.pol, cfg.sc.table, old(r.Rest()), r.end))
      ensures forall id :: id in old(blobs.blobs) ==> id in blobs.blobs && blobs.blobs[id] == old(blobs.blobs)[id]
    {
      hide Holds, Scheme.Sound, Delivered, EntriesFor, IdsOf;
      if closed {
        return Refused(StoreClosed);
      }
      if r == null {
        return Refused(Invalid);
      }
      ghost var content := r.Rest();
      NormalizeFixpoint(cfg.sc.pol);
      var sp := new Splitter(r, cfg.sc.pol, cfg.sc.table);
      var entries, obj, st := WriteChunks(sp);
      if st != Eof {
        return Refused(ReadFailed(st));
      }
      var oid := cfg.sc.objectId(obj);
      res := Enter(obj, oid, entries);
    }

    /** The second half of Put, under the object's lock: the chunks of content are in the backend. */
    method Enter(ghost content: bytes, oid: Id, entries: seq<Entry>) returns (res: Answer<Id>)
      requires Valid() && !closed && Roomy()
      requires content in known && contents[content] + 1 < TWO32
      requires oid == cfg.sc.objectId(content) && entries == EntriesFor(cfg.sc, cfg.sc.Pieces(content))
      requires ChunksPresent(cfg.sc, blobs.blobs, content)
      modifies this`contents, refs`counts, refs`dirty, idx, mem
      ensures Valid()
      ensures |cfg.sc.Pieces(content)| <= MAX_CHUNKS ==>
                res == Good(oid) && contents == old(contents) + multiset{content}
      ensures |cfg.sc.Pieces(content)| > MAX_CHUNKS ==> res == Refused(BadManifestBytes(TooManyChunks))
      ensures res.Refused? ==> NothingVisibleChanged()
    {
      hide Holds, Scheme.Sound, EntriesFor, ChunksPresent, RawOf, RecordOf;
      IndexedIffHeld(cfg, known, contents, Now(), content);
      var rec := idx.Get(oid);
      if rec.Some? {
        EnterAgain(content, oid, rec.value);
        EnteredRecord(cfg, known, old(Now()), content, old(contents)[content]);
        return Good(oid);
      }
      res := EnterFirst(content, oid, entries);
    }

    /** One copy more of an object that is indexed as rec. */
    method EnterAgain(ghost content: bytes, oid: Id, rec: Record)
      requires Valid() && contents[content] + 1 < TWO32 && content in contents
      requires oid == cfg.sc.objectId(content) && oid in idx.objects && idx.objects[oid] == rec
      modifies this`contents, idx
      ensures Valid() && contents == old(contents) + multiset{content}
    {
      hide Holds, Scheme.Sound, ChunksPresent, RawOf;
      ghost var before := Now();
      HeldRecord(cfg, known, contents, before, content);
      idx.Put(rec.(useCount := (rec.useCount + 1) % TWO32));
      OneCopyMore(cfg, known, contents, before, content);
      contents := contents + multiset{content};
    }

    /** The first copy of an object: manifest, then counts, then index. */
    method EnterFirst(ghost content: bytes, oid: Id, entries: seq<Entry>) returns (res: Answer<Id>)
      requires Valid() && Roomy() && content in known && content !in contents
      requires oid == cfg.sc.objectId(content) && entries == EntriesFor(cfg.sc, cfg.sc.Pieces(content))
      requires ChunksPresent(cfg.sc, blobs.blobs, content)
      modifies this`contents, refs`counts, refs`dirty, idx, mem
      ensures Valid()
      ensures |cfg.sc.Pieces(content)| <= MAX_CHUNKS ==>
                res == Good(oid) && contents == old(contents) + multiset{content}
      ensures |cfg.sc.Pieces(content)| > MAX_CHUNKS ==> res == Refused(BadManifestBytes(TooManyChunks))
      ensures res.Refused? ==> NothingVisibleChanged()
    {
      hide Holds, Scheme.Sound, EntriesFor, ChunksPresent, WellFormed, Encoded, Made, RecordOf, Lengths, Sum, NoZeros,
        RawOf;
      ghost var before := Now();
      var mf := Manifests.New(cfg.algo, cfg.sc.pol.avg, cfg.sc.pol.mode == Cdc, oid, entries);
      assert mf == ManifestOf(cfg, content);
      hide ManifestOf;
      BuiltManifestValid(cfg, known, content);
      ManifestIds(cfg, content);
      VersionStays(cfg, content);
      var raw := Encode(mf, cfg.crc);
      if raw.Failure? {
        OnlyTooMany(mf, content, raw.error);
        return Refused(BadManifestBytes(raw.error));
      }
      hide ChunkIds, Scheme.Ids, Scheme.Pieces, Plus;
      FirstRecord(cfg, content, entries);
      EnterAll(oid, mf, |entries| % TWO32, raw.value);
      FirstCopy(cfg, known, contents, before, content, refs.counts);
      contents := contents + multiset{content};
      return Good(oid);
    }

    /** Nothing but the number of chunks is ever wrong with a manifest that Put builds. */
    lemma OnlyTooMany(mf: Manifest, c: bytes, f: Manifests.Fault)
      requires cfg.sc.Sound(known) && c in known && mf == ManifestOf(cfg, c) && Explains(mf, f)
      ensures |cfg.sc.Pieces(c)| > MAX_CHUNKS && f == TooManyChunks
    {
      hide Scheme.Pieces, EntryOk, Blank;
      OneExplanation(mf, f, f);
      BuiltManifestValid(cfg, known, c);
      OneExplanation(mf, f, TooManyChunks);
    }

    /** Keeps the manifest, counts its chunks and enters the object in the index. */
    method EnterAll(oid: Id, mf: Manifest, chunks: uint32, raw: bytes)
      requires refs.Valid() && refs.j == null && forall id :: Count(refs.counts, id) + |ChunkIds(mf)| < TWO64
      modifies refs`counts, refs`dirty, idx, mem
      ensures refs.Valid() && Plus(refs.counts, old(refs.counts), ChunkIds(mf))
      ensures idx.objects == old(idx.objects)[oid := Record(oid, 1, mf.totalSize, chunks)]
      ensures mem.raws == old(mem.raws)[oid := raw]
    {
      hide ChunkIds, Plus, NoZeros;
      mem.raws := mem.raws[oid := raw];
      var counted, done := refs.AddMany(ChunkIds(mf));
      idx.Put(Record(oid, 1, mf.totalSize, chunks));
    }

    /** loadManifest: the stored bytes, decoded. For a held content that is the manifest Put built. */
    method LoadManifest(oid: Id) returns (res: Answer<Manifest>)
      requires Valid()
      ensures oid !in mem.raws ==> res == Refused(Missing)
      ensures forall c :: c in contents && cfg.sc.objectId(c) == oid ==> res == Good(ManifestOf(cfg, c))
      ensures forall c :: c in contents && cfg.sc.objectId(c) == oid ==> res.Good? && Tells(cfg, res.value, c)
    {
      HeldTell();
      hide Tells;
      forall c | c in contents && cfg.sc.objectId(c) == oid
        ensures oid in mem.raws && Readable(mem.raws[oid], cfg.crc)
            && Meaning(mem.raws[oid], cfg.crc) == ManifestOf(cfg, c)
      {
        HeldManifest(cfg, known, contents, Now(), c);
      }
      hide Holds, Scheme.Sound, Readable, Meaning;
      if oid !in mem.raws {
        return Refused(Missing);
      }
      var decoded := Decode(mem.raws[oid], cfg.crc);
      if decoded.Failure? {
        return Refused(Corrupt);
      }
      return Good(decoded.value);
    }

    lemma HeldTell()
      requires Valid()
      ensures forall c :: c in contents ==> Tells(cfg, ManifestOf(cfg, c), c)
    {
      hide OnlyHeld, Genuine, CountsMatch, RecordOf, RawOf, ChunksPresent, Scheme.Sound, Tells, ManifestOf;
      forall c | c in contents
        ensures Tells(cfg, ManifestOf(cfg, c), c)
      {
        assert HoldsOne(cfg, known, Now(), c, contents[c]);
        ManifestTells(cfg, c);
      }
    }

    /** Every stored chunk is one that a held content lists. */
    ghost predicate NoOrphans()
      reads this, blobs
    {
      forall id :: id in blobs.blobs ==> exists c :: c in contents && id in cfg.sc.Ids(c)
    }

    /** What is counted is listed by a held content. */
    lemma CountedIsListed()
      requires Valid() && forall id :: id in blobs.blobs ==> Count(refs.counts, id) > 0
      ensures NoOrphans()
    {
      hide HoldsAll, OnlyHeld, Genuine, Scheme.Sound, Total, Scheme.Ids;
      forall id | id in blobs.blobs
        ensures exists c :: c in contents && id in cfg.sc.Ids(c)
      {
        assert Total(Demand(cfg.sc, contents))[id] > 0;
        var c := TotalMember(Demand(cfg.sc, contents), id);
      }
    }

    /** Removes one copy of the object with this digest, or reports that there is none. With auto-GC the chunks
        that are not needed any more go too; else, and if nothing is removed, all chunks stay. */
    method Delete(oid: Id) returns (res: Answer<Id>)
      requires Valid()
      modifies this`contents, blobs`blobs, blobs`nbytes, refs`counts, refs`dirty, idx, mem
      ensures Valid()
      ensures closed ==> res == Refused(StoreClosed)
      ensures !closed && (forall c :: c in old(contents) ==> cfg.sc.objectId(c) != oid) ==> res == Refused(Missing)
      ensures !closed ==> forall c :: c in old(contents) && cfg.sc.objectId(c) == oid ==>
                res == Good(oid) && contents == old(contents) - multiset{c}
      ensures res.Refused? ==> NothingVisibleChanged()
      ensures blobs.blobs == if res.Good? && autoGc
                             then old(blobs.blobs) - Collecting.Dead(old(blobs.blobs), refs.counts)
                             else old(blobs.blobs)
      ensures res.Good? && autoGc ==> NoOrphans()
    {
      hide Holds, Scheme.Sound, Collecting.Reports, NoOrphans;
      if closed {
        return Refused(StoreClosed);
      }
      res := DeleteLocked(oid);
      if res.Refused? {
        return;
      }
      if autoGc {
        var collected := Gc();
        CountedIsListed();
      }
    }

    method DeleteLocked(oid: Id) returns (res: Answer<Id>)
      requires Valid() && !closed
      modifies this`contents, refs`counts, refs`dirty, idx, mem
      ensures Valid()
      ensures (forall c :: c in old(contents) ==> cfg.sc.objectId(c) != oid) ==> res == Refused(Missing)
      ensures forall c :: c in old(contents) && cfg.sc.objectId(c) == oid ==>
                res == Good(oid) && contents == old(contents) - multiset{c}
      ensures res.Refused? ==> NothingVisibleChanged()
    {
      hide Holds, Scheme.Sound, ManifestOf;
      var rec := idx.Get(oid);
      if rec.None? {
        UnlistedIsUnheld(cfg, known, contents, Now(), oid);
        return Refused(Missing);
      }
      ghost var c := ListedIsHeld(cfg, known, contents, Now(), oid);
      var mf := LoadManifest(oid);
      res := ApplyDelete(c, oid, rec.value, mf.value);
    }

    method ApplyDelete(ghost c: bytes, oid: Id, rec: Record, mf: Manifest) returns (res: Answer<Id>)
      requires Valid() && c in contents && oid == cfg.sc.objectId(c)
      requires oid in idx.objects && idx.objects[oid] == rec && mf == ManifestOf(cfg, c)
      modifies this`contents, refs`counts, refs`dirty, idx, mem
      ensures Valid() && res == Good(oid) && contents == old(contents) - multiset{c}
    {
      hide Holds, Scheme.Sound, ManifestOf, ChunksPresent, RawOf, RecordOf;
      ghost var before := Now();
      HeldOnce(cfg, known, contents, before, c);
      if rec.useCount > 1 {
        idx.Put(rec.(useCount := rec.useCount - 1));
        OneCopyLess(cfg, known, contents, before, c);
        contents := contents - multiset{c};
        return Good(oid);
      }
      res := TakeBack(c, oid, mf);
    }

    /** The last copy: counts down, then out of the index, then the manifest. */
    method TakeBack(ghost c: bytes, oid: Id, mf: Manifest) returns (res: Answer<Id>)
      requires Valid() && contents[c] == 1 && oid == cfg.sc.objectId(c) && mf == ManifestOf(cfg, c)
      modifies this`contents, refs`counts, refs`dirty, idx, mem
      ensures Valid() && res == Good(oid) && contents == old(contents) - multiset{c}
    {
      hide Holds, Scheme.Sound, ManifestOf, ChunksPresent, RawOf, RecordOf, Lengths, Sum, NoZeros, Scheme.Ids, ChunkIds;
      ghost var before := Now();
      HeldOnce(cfg, known, contents, before, c);
      ManifestIds(cfg, c);
      var taken, done := refs.SubMany(ChunkIds(mf));
      if !taken {
        return Refused(CountFailed);
      }
      idx.Delete(oid);
      mem.raws := mem.raws - {oid};
      LastCopy(cfg, known, contents, before, c, refs.counts);
      contents := contents - multiset{c};
      return Good(oid);
    }

    /** Collects the chunks nobody counts; nothing visible changes. */
    method Gc() returns (res: Answer<Collecting.Stats>)
      requires Valid()
      modifies blobs`blobs, blobs`nbytes
      ensures Valid()
      ensures closed ==> res == Refused(StoreClosed) && blobs.blobs == old(blobs.blobs)
      ensures !closed ==> res.Good? && blobs.blobs == old(blobs.blobs) - Collecting.Dead(old(blobs.blobs), refs.counts)
      ensures !closed ==> Collecting.Reports(res.value, old(blobs.blobs), refs.counts, old(blobs.blobs).Keys)
      ensures !closed ==> forall id :: id in blobs.blobs ==> Count(refs.counts, id) > 0
    {
      hide Holds, Scheme.Sound, Collecting.Reports;
      if closed {
        return Refused(StoreClosed);
      }
      ghost var before := Now();
      var ok, st := Collecting.Run(blobs, refs, false);
      DeadChunksGone(cfg, known, contents, before, Collecting.Dead(before.blobs, before.counts));
      assert Now() == before.(blobs := blobs.blobs);
      return Good(st);
    }

    /** Opens an object for reading: everything the reader will deliver is the content. */
    method Get(oid: Id) returns (res: Answer<BlobReaders.BlobReader>)
      requires Valid()
      ensures closed ==> res == Refused(StoreClosed)
      ensures !closed && (forall c :: c in contents ==> cfg.sc.objectId(c) != oid) ==> res == Refused(Missing)
      ensures res.Good? ==> exists c :: c in contents && cfg.sc.objectId(c) == oid
      ensures !closed ==> forall c :: c in contents && cfg.sc.objectId(c) == oid ==>
                res.Good? && fresh(res.value) && res.value.Opens(c)
    {
      hide Holds, Scheme.Sound, ManifestOf, BlobReaders.BlobReader.Opens;
      if closed {
        return Refused(StoreClosed);
      }
      var rec := idx.Get(oid);
      if rec.None? {
        UnlistedIsUnheld(cfg, known, contents, Now(), oid);
        return Refused(Missing);
      }
      ghost var c := ListedIsHeld(cfg, known, contents, Now(), oid);
      var mf := LoadManifest(oid);
      var reader := OpenReader(c, mf.value);
      return Good(reader);
    }

    method OpenReader(ghost c: bytes, mf: Manifest) returns (reader: BlobReaders.BlobReader)
      requires Valid() && !closed && c in contents && mf == ManifestOf(cfg, c)
      ensures fresh(reader) && reader.Opens(c)
    {
      hide Holds, Scheme.Sound, ManifestOf;
      HeldReads(cfg, known, contents, Now(), c);
      reader := new BlobReaders.BlobReader(blobs, mf);
      assert mf.chunks[0..] == mf.chunks;
    }

    /** The whole content of an object. */
    method GetBytes(oid: Id) returns (res: Answer<bytes>)
      requires Valid()
      ensures closed ==> res == Refused(StoreClosed)
      ensures !closed && (forall c :: c in contents ==> cfg.sc.objectId(c) != oid) ==> res == Refused(Missing)
      ensures !closed ==> forall c :: c in contents && cfg.sc.objectId(c) == oid ==> res == Good(c)
    {
      hide Holds, Scheme.Sound;
      var reader := Get(oid);
      if reader.Refused? {
        return Refused(reader.error);
      }
      ghost var c :| c in contents && cfg.sc.objectId(c) == oid;
      SameObjectSameContent(cfg, known, contents, Now(), c);
      var out := BlobReaders.ReadAll(reader.value, 512);
      reader.value.Close();
      return Good(out);
    }

    /** Checks an object: a held one always passes. */
    method Verify(oid: Id) returns (res: Answer<bool>)
      requires Valid()
      ensures closed ==> res == Refused(StoreClosed)
      ensures !closed && (forall c :: c in contents ==> cfg.sc.objectId(c) != oid) ==> res == Refused(Missing)
      ensures !closed && (exists c :: c in contents && cfg.sc.objectId(c) == oid) ==> res == Good(true)
    {
      hide Holds, Scheme.Sound, ManifestOf, Verifying.Intact;
      if closed {
        return Refused(StoreClosed);
      }
      var rec := idx.Get(oid);
      if rec.None? {
        UnlistedIsUnheld(cfg, known, contents, Now(), oid);
        return Refused(Missing);
      }
      ghost var c := ListedIsHeld(cfg, known, contents, Now(), oid);
      var mf := LoadManifest(oid);
      HeldIsIntact(cfg, known, contents, Now(), c);
      var algo, d := cfg.algo, Verifying.Digests(cfg.sc.chunkId, cfg.sc.objectId);
      var faults := Verifying.Object(name => if name == algo then Some(d) else None, blobs, Some(mf.value));
      if faults != [] {
        return Refused(VerifyFailed);
      }
      return Good(true);
    }

    /** Is the object there? */
    method Has(oid: Id) returns (res: Answer<bool>)
      requires Valid()
      ensures closed ==> res == Refused(StoreClosed)
      ensures !closed ==> res == Good(exists c :: c in contents && cfg.sc.objectId(c) == oid)
    {
      hide Holds, Scheme.Sound;
      if closed {
        return Refused(StoreClosed);
      }
      var rec := idx.Get(oid);
      if rec.None? {
        UnlistedIsUnheld(cfg, known, contents, Now(), oid);
        return Good(false);
      }
      ghost var c := ListedIsHeld(cfg, known, contents, Now(), oid);
      return Good(true);
    }

    /** What the index says of an object: digest, length, number of chunks, and how often it is held. */
    method Stat(oid: Id) returns (res: Answer<(Id, nat, nat, nat)>)
      requires Valid()
      ensures closed ==> res == Refused(StoreClosed)
      ensures !closed && (forall c :: c in contents ==> cfg.sc.objectId(c) != oid) ==> res == Refused(Missing)
      ensures !closed ==> forall c :: c in contents && cfg.sc.objectId(c) == oid ==>
                res == Good((oid, |c|, |cfg.sc.Pieces(c)|, contents[c]))
    {
      hide Holds, Scheme.Sound, Scheme.Pieces;
      if closed {
        return Refused(StoreClosed);
      }
      var rec := idx.Get(oid);
      if rec.None? {
        UnlistedIsUnheld(cfg, known, contents, Now(), oid);
        return Refused(Missing);
      }
      ghost var c := ListedIsHeld(cfg, known, contents, Now(), oid);
      SameObjectSameContent(cfg, known, contents, Now(), c);
      RecordSays(c);
      return Good((rec.value.id, rec.value.size, rec.value.chunks, rec.value.useCount));
    }

    lemma RecordSays(c: bytes)
      requires Valid() && c in contents
      ensures var o := cfg.sc.objectId(c);
        && o in idx.objects && idx.objects[o].id == o && idx.objects[o].useCount == contents[c]
        && idx.objects[o].size == |c| && idx.objects[o].chunks == |cfg.sc.Pieces(c)|
    {
      hide OnlyHeld, Genuine, CountsMatch, RawOf, ChunksPresent, Scheme.Sound, Scheme.Pieces;
      assert HoldsOne(cfg, known, Now(), c, contents[c]);
      ManifestTotals(cfg, c);
      SmallIsItself(|c|, TWO64);
      SmallIsItself(|cfg.sc.Pieces(c)|, TWO32);
    }

    /** How often a chunk is counted: as often as the manifests of the held contents list it. */
    method ChunkRef(id: Id) returns (res: Answer<uint64>)
      requires Valid()
      ensures closed ==> res == Refused(StoreClosed)
      ensures !closed ==> res.Good? && res.value == Total(Demand(cfg.sc, contents))[id]
    {
      hide HoldsAll, OnlyHeld, Genuine, Scheme.Sound, Total, Demand;
      if closed {
        return Refused(StoreClosed);
      }
      var n := refs.Get(id);
      return Good(n);
    }

    /** Object count, chunk count, logical and stored bytes. Weighed by the reference counts the chunks
        come to the logical bytes; right after a collection the stored bytes are no more than those. */
    method StoreStats() returns (res: Answer<(nat, nat, uint64, int)>)
      requires Valid()
      ensures closed ==> res == Refused(StoreClosed)
      ensures !closed ==> res.Good? && res.value.0 == |idx.objects| && res.value.1 == |blobs.blobs|
      ensures !closed ==> res.Good? && res.value.2 == Sum(Conservation.ContentSizes(contents)) % TWO64
      ensures !closed ==> res.Good? && res.value.2 == Sum(Conservation.CountedBytes(Now())) % TWO64
      ensures !closed && (forall id :: id in blobs.blobs ==> Count(refs.counts, id) > 0) ==>
                res.Good? && res.value.3 <= Sum(Conservation.ContentSizes(contents))
      ensures !closed ==> res.Good? && res.value.3 == Sum(Lengths(blobs.blobs))
      ensures !closed ==> res.Good? && res.value.0 == |set c | c in contents|
    {
      hide Sum, Valid, Conservation.ContentSizes, Conservation.CountedBytes, Lengths, Sizes;
      Weighed();
      OneRecordEach();
      if closed {
        return Refused(StoreClosed);
      }
      var logical := idx.TotalBytes();
      var unique := blobs.Bytes();
      return Good((|idx.objects|, |blobs.blobs|, logical, unique));
    }

    /** There are as many records as different contents. */
    lemma OneRecordEach()
      requires Valid()
      ensures |idx.objects| == |set c | c in contents|
    {
      hide HoldsAll, CountsMatch, Genuine, Scheme.Sound, OnlyHeld, RecordOf, RawOf, ChunksPresent;
      ghost var all := set c | c in contents;
      forall o | o in idx.objects
        ensures exists c :: c in all && cfg.sc.objectId(c) == o
      {
        var c := ListedIsHeld(cfg, known, contents, Now(), o);
      }
      forall c | c in all
        ensures cfg.sc.objectId(c) in idx.objects && c in known
      {
        RecordSays(c);
        OneHeld(cfg, known, contents, Now(), c);
      }
      AllDifferent(all);
      assert idx.objects.Keys == set c | c in all :: cfg.sc.objectId(c);
      SameNumber(all, cfg.sc.objectId, idx.objects.Keys);
    }

    lemma AllDifferent(all: set<bytes>)
      requires cfg.sc.Sound(known) && forall c :: c in all ==> c in known
      ensures forall a, b :: a in all && b in all && cfg.sc.objectId(a) == cfg.sc.objectId(b) ==> a == b
    {
    }

    /** The three ways to add up the logical bytes agree, and what is stored is no more if all is counted. */
    lemma Weighed()
      requires Valid()
      ensures blobs.Valid()
      ensures Sum(Sizes(idx.objects)) == Sum(Conservation.ContentSizes(contents))
          == Sum(Conservation.CountedBytes(Now()))
      ensures (forall id :: id in blobs.blobs ==> Count(refs.counts, id) > 0) ==>
                Sum(Lengths(blobs.blobs)) <= Sum(Conservation.ContentSizes(contents))
    {
      hide Holds, Scheme.Sound, Sum;
      Conservation.CountsWeighTheObjects(cfg, known, contents, Now());
      if forall id :: id in blobs.blobs ==> Count(refs.counts, id) > 0 {
        Conservation.UniqueAtMostLogical(cfg, known, contents, Now());
      }
    }

    /** Closes the store and its backend; every later operation is refused. */
    method Close()
      requires Valid()
      modifies this`closed, blobs`closed
      ensures Valid() && closed && contents == old(contents)
    {
      closed := true;
      blobs.Close();
    }
  }

  /** New content put into a store with auto-GC and deleted again: the store holds what it held before, and no
      chunk that no content lists. */
  method PutAndDelete(s: Store, r: Reader) returns (oid: Id)
    requires s.Valid() && s.Roomy() && s.Welcome(r) && !s.closed && s.autoGc
    requires r.end == Eof && r.Rest() !in s.contents && |s.cfg.sc.Pieces(r.Rest())| <= MAX_CHUNKS
    modifies s`contents, s.blobs`blobs, s.blobs`nbytes, s.refs`counts, s.refs`dirty, s.idx, s.mem, r
    ensures s.Valid() && s.contents == old(s.contents) && oid == s.cfg.sc.objectId(old(r.Rest()))
    ensures s.NoOrphans()
  {
    hide Holds, Scheme.Sound, Delivered, IdsOf, Scheme.Pieces, Store.NoOrphans, Lengths, Sum;
    ghost var c := r.Rest();
    var put := s.Put(r);
    oid := put.value;
    assert c in s.contents && s.cfg.sc.objectId(c) == oid;
    var gone := s.Delete(oid);
    assert s.contents == old(s.contents) + multiset{c} - multiset{c};
  }

  /** A one-to-one image has as many elements. */
  lemma {:induction false} SameNumber<A, B>(all: set<A>, f: A -> B, image: set<B>)
    requires forall a, b :: a in all && b in all && f(a) == f(b) ==> a == b
    requires image == set a | a in all :: f(a)
    ensures |all| == |image|
    decreases all
  {
    if all != {} {
      var a :| a in all;
      var fewer := all - {a};
      SameNumber(fewer, f, image - {f(a)});
      assert all == fewer + {a} && image == (image - {f(a)}) + {f(a)};
    }
  }

  /** The digests of pieces. */
  ghost function IdsOf(sc: Scheme, ps: seq<bytes>): set<Id> {
    set p | p in ps :: sc.chunkId(p)
  }

  lemma NoIds(sc: Scheme)
    ensures IdsOf(sc, []) == {}
  {
  }

  lemma OneMoreId(sc: Scheme, ps: seq<bytes>, p: bytes)
    ensures IdsOf(sc, ps + [p]) == IdsOf(sc, ps) + {sc.chunkId(p)}
  {
    forall q
      ensures q in ps + [p] <==> q in ps || q == p
    {
    }
  }

  lemma {:induction false} ReadBackPieces(cfg: Config, known: iset<bytes>, blobs: map<Id, bytes>, c: bytes, n: nat)
    requires cfg.sc.Sound(known) && Genuine(cfg.sc, known, blobs) && ChunksPresent(cfg.sc, blobs, c) && c in known
    requires n <= |cfg.sc.Pieces(c)|
    ensures Verifying.ReadBack(blobs, ManifestOf(cfg, c).chunks[..n]) == Concat(cfg.sc.Pieces(c)[..n])
  {
    hide Scheme.Sound, Scheme.Pieces, Scheme.Ids, Genuine, ChunksPresent, ManifestOf, ChunkIds, Concat;
    VersionStays(cfg, c);
    NoPieces();
    if n > 0 {
      var es, ps := ManifestOf(cfg, c).chunks, cfg.sc.Pieces(c);
      EntryId(cfg, c, n - 1);
      ReadBackPieces(cfg, known, blobs, c, n - 1);
      Conservation.PieceStored(cfg.sc, known, blobs, c, n - 1);
      assert es[..n][..n - 1] == es[..n - 1] && es[..n][n - 1] == es[n - 1];
      assert ps[..n] == ps[..n - 1] + [ps[n - 1]];
      ConcatSnoc(ps[..n - 1], ps[n - 1]);
    }
  }

  lemma EntryId(cfg: Config, c: bytes, i: nat)
    requires i < |cfg.sc.Pieces(c)|
    ensures i < |ManifestOf(cfg, c).chunks| && ManifestOf(cfg, c).chunks[i].id == cfg.sc.Ids(c)[i]
  {
    hide ManifestOf, Scheme.Pieces, Scheme.Ids;
    VersionStays(cfg, c);
    ManifestIds(cfg, c);
    assert ChunkIds(ManifestOf(cfg, c))[i] == ManifestOf(cfg, c).chunks[i].id;
  }

  /** A held content with the manifest it was stored under passes every check of the verifier. */
  lemma HeldIsIntact(cfg: Config, known: iset<bytes>, contents: multiset<bytes>, k: Kept, c: bytes)
    requires cfg.sc.Sound(known) && Holds(cfg, known, contents, k) && c in contents
    ensures Verifying.Intact(Verifying.Digests(cfg.sc.chunkId, cfg.sc.objectId), k.blobs, ManifestOf(cfg, c))
    ensures |Verifying.ReadBack(k.blobs, ManifestOf(cfg, c).chunks)| < TWO64 && ManifestOf(cfg, c).algo == cfg.algo
  {
    hide OnlyHeld, CountsMatch, Scheme.Sound, RawOf, RecordOf, Genuine, ChunksPresent;
    assert HoldsOne(cfg, known, k, c, contents[c]);
    PresentIsIntact(cfg, known, k.blobs, c);
  }

  lemma PresentIsIntact(cfg: Config, known: iset<bytes>, blobs: map<Id, bytes>, c: bytes)
    requires cfg.sc.Sound(known) && Genuine(cfg.sc, known, blobs) && ChunksPresent(cfg.sc, blobs, c) && c in known
    requires |cfg.sc.Pieces(c)| <= MAX_CHUNKS
    ensures Verifying.Intact(Verifying.Digests(cfg.sc.chunkId, cfg.sc.objectId), blobs, ManifestOf(cfg, c))
    ensures |Verifying.ReadBack(blobs, ManifestOf(cfg, c).chunks)| < TWO64
  {
    var m, ps := ManifestOf(cfg, c), cfg.sc.Pieces(c);
    BuiltManifestValid(cfg, known, c);
    ManifestTotals(cfg, c);
    ReadBackPieces(cfg, known, blobs, c, |ps|);
    SplitConcat(cfg.sc.pol, cfg.sc.table, c);
    assert m.chunks[..|ps|] == m.chunks && ps[..|ps|] == ps;
    forall i | 0 <= i < |m.chunks|
      ensures m.chunks[i].id in blobs && blobs[m.chunks[i].id] == ps[i] && cfg.sc.chunkId(ps[i]) == m.chunks[i].id
    {
      Conservation.PieceStored(cfg.sc, known, blobs, c, i);
    }
    hide Scheme.Sound, WellFormed, ManifestOf, Genuine, ChunksPresent;
  }

  /** Take one of its chunks away, or put any other known bytes in its place, and the object is not intact. */
  lemma TamperedIsNotIntact(cfg: Config, known: iset<bytes>, blobs: map<Id, bytes>, c: bytes, i: nat)
    requires cfg.sc.Sound(known) && c in known && i < |cfg.sc.Pieces(c)|
    requires cfg.sc.Ids(c)[i] !in blobs
          || (blobs[cfg.sc.Ids(c)[i]] in known && blobs[cfg.sc.Ids(c)[i]] != cfg.sc.Pieces(c)[i])
    ensures !Verifying.Intact(Verifying.Digests(cfg.sc.chunkId, cfg.sc.objectId), blobs, ManifestOf(cfg, c))
    ensures !Verifying.ChunkOk(Verifying.Digests(cfg.sc.chunkId, cfg.sc.objectId), blobs, ManifestOf(cfg, c).chunks[i])
  {
    var e := ManifestOf(cfg, c).chunks[i];
    assert e.id == cfg.sc.Ids(c)[i] == cfg.sc.chunkId(cfg.sc.Pieces(c)[i]);
    assert cfg.sc.Pieces(c)[i] in known;
    hide WellFormed;
  }

  /** What loadManifest finds for a held content. */
  lemma HeldManifest(cfg: Config, known: iset<bytes>, contents: multiset<bytes>, k: Kept, c: bytes)
    requires cfg.sc.Sound(known) && Holds(cfg, known, contents, k) && c in contents
    ensures var o := cfg.sc.objectId(c);
      o in k.raws && Readable(k.raws[o], cfg.crc) && Meaning(k.raws[o], cfg.crc) == ManifestOf(cfg, c)
  {
    hide OnlyHeld, Genuine, CountsMatch, ChunksPresent, Scheme.Sound;
    assert HoldsOne(cfg, known, k, c, contents[c]);
    ManifestComesBack(cfg, known, c);
  }

  lemma UnlistedIsUnheld(cfg: Config, known: iset<bytes>, contents: multiset<bytes>, k: Kept, oid: Id)
    requires Holds(cfg, known, contents, k) && oid !in k.objects
    ensures forall c :: c in contents ==> cfg.sc.objectId(c) != oid
    ensures oid !in k.raws
  {
    hide Genuine, CountsMatch, ChunksPresent, RawOf, RecordOf;
  }

  lemma ListedIsHeld(cfg: Config, known: iset<bytes>, contents: multiset<bytes>, k: Kept, oid: Id) returns (c: bytes)
    requires cfg.sc.Sound(known) && Holds(cfg, known, contents, k) && oid in k.objects
    ensures c in contents && cfg.sc.objectId(c) == oid
    ensures forall d :: d in contents && cfg.sc.objectId(d) == oid ==> d == c
  {
    c := cfg.sc.ContentOf(known, oid);
    SameObjectSameContent(cfg, known, contents, k, c);
  }

  lemma SameObjectSameContent(cfg: Config, known: iset<bytes>, contents: multiset<bytes>, k: Kept, c: bytes)
    requires cfg.sc.Sound(known) && Holds(cfg, known, contents, k) && c in contents
    ensures forall d :: d in contents && cfg.sc.objectId(d) == cfg.sc.objectId(c) ==> d == c
  {
    hide Genuine, CountsMatch, ChunksPresent, RawOf, RecordOf;
    assert HoldsOne(cfg, known, k, c, contents[c]);
    forall d | d in contents && cfg.sc.objectId(d) == cfg.sc.objectId(c)
      ensures d == c
    {
      assert HoldsOne(cfg, known, k, d, contents[d]);
    }
  }

  /** The record of a held content, and what a Delete makes of it. */
  lemma HeldOnce(cfg: Config, known: iset<bytes>, contents: multiset<bytes>, k: Kept, c: bytes)
    requires Holds(cfg, known, contents, k) && c in contents
    ensures var o := cfg.sc.objectId(c);
      && o in k.objects && k.objects[o] == RecordOf(cfg.sc, c, contents[c])
      && contents[c] < TWO32 && k.objects[o].useCount == contents[c] && k.objects[o].id == o
      && (contents[c] > 1
          ==> k.objects[o].(useCount := k.objects[o].useCount - 1) == RecordOf(cfg.sc, c, contents[c] - 1))
    ensures forall id :: multiset(cfg.sc.Ids(c))[id] <= Count(k.counts, id)
  {
    hide OnlyHeld, Genuine, RawOf, ChunksPresent;
    assert HoldsOne(cfg, known, k, c, contents[c]);
    CountedEnough(cfg.sc, contents, k.counts, c);
  }

  lemma {:induction false} JoinedPieces(cfg: Config, known: iset<bytes>, blobs: map<Id, bytes>, c: bytes, n: nat)
    requires cfg.sc.Sound(known) && Genuine(cfg.sc, known, blobs) && ChunksPresent(cfg.sc, blobs, c) && c in known
    requires n <= |cfg.sc.Pieces(c)|
    ensures BlobReaders.Present(blobs, ManifestOf(cfg, c).chunks[n..])
    ensures BlobReaders.Joined(blobs, ManifestOf(cfg, c).chunks[n..]) == Concat(cfg.sc.Pieces(c)[n..])
    decreases |cfg.sc.Pieces(c)| - n
  {
    var es, ps := ManifestOf(cfg, c).chunks, cfg.sc.Pieces(c);
    forall i | n <= i < |es|
      ensures es[i].id in blobs
    {
      assert cfg.sc.Ids(c)[i] in blobs;
    }
    if n < |ps| {
      JoinedPieces(cfg, known, blobs, c, n + 1);
      assert es[n..][1..] == es[n + 1..] && ps[n..][1..] == ps[n + 1..];
      assert ps[n] in known && blobs[es[n].id] in known;
      assert blobs[es[n].id] == ps[n];
    }
  }

  /** Reading a held content's manifest chunk by chunk gives the content. */
  lemma HeldReads(cfg: Config, known: iset<bytes>, contents: multiset<bytes>, k: Kept, c: bytes)
    requires cfg.sc.Sound(known) && Holds(cfg, known, contents, k) && c in contents
    ensures BlobReaders.Present(k.blobs, ManifestOf(cfg, c).chunks)
    ensures BlobReaders.Joined(k.blobs, ManifestOf(cfg, c).chunks) == c
  {
    hide OnlyHeld, CountsMatch, Scheme.Sound;
    assert HoldsOne(cfg, known, k, c, contents[c]);
    JoinedPieces(cfg, known, k.blobs, c, 0);
    SplitConcat(cfg.sc.pol, cfg.sc.table, c);
    assert ManifestOf(cfg, c).chunks[0..] == ManifestOf(cfg, c).chunks && cfg.sc.Pieces(c)[0..] == cfg.sc.Pieces(c);
  }

  lemma HeldRecord(cfg: Config, known: iset<bytes>, contents: multiset<bytes>, k: Kept, c: bytes)
    requires cfg.sc.Sound(known) && Holds(cfg, known, contents, k) && c in contents
    requires contents[c] + 1 < TWO32
    ensures var o := cfg.sc.objectId(c);
      && o in k.objects && k.objects[o] == RecordOf(cfg.sc, c, contents[c])
      && k.objects[o].(useCount := (k.objects[o].useCount + 1) % TWO32) == RecordOf(cfg.sc, c, contents[c] + 1)
  {
    hide OnlyHeld, Genuine, CountsMatch, RawOf, ChunksPresent, Scheme.Sound;
    assert HoldsOne(cfg, known, k, c, contents[c]);
  }

  /** The record of a held content. */
  lemma EnteredRecord(cfg: Config, known: iset<bytes>, k: Kept, c: bytes, copies: nat)
    requires HoldsOne(cfg, known, k, c, copies)
    ensures k.objects[cfg.sc.objectId(c)] == RecordOf(cfg.sc, c, copies) && copies < TWO32
    ensures |cfg.sc.Pieces(c)| <= MAX_CHUNKS
  {
  }

  /** The pieces got are stored, listed and hashed, and the next one goes to offset. */
  ghost predicate Written(sc: Scheme, blobs: map<Id, bytes>, got: seq<bytes>, entries: seq<Entry>, obj: bytes,
                          offset: uint64) {
    && entries == EntriesFor(sc, got)
    && obj == Concat(got) && offset == |obj| % TWO64
    && forall i :: 0 <= i < |got| ==> sc.chunkId(got[i]) in blobs
  }

  lemma NothingWritten(sc: Scheme, blobs: map<Id, bytes>)
    ensures Written(sc, blobs, [], [], [], 0)
  {
  }

  lemma WrittenMore(sc: Scheme, blobs: map<Id, bytes>, blobs': map<Id, bytes>, got: seq<bytes>, entries: seq<Entry>,
                    obj: bytes, p: Piece)
    requires Written(sc, blobs, got, entries, obj, p.offset)
    requires blobs.Keys <= blobs'.Keys && sc.chunkId(p.data) in blobs'
    ensures Written(sc, blobs', got + [p.data], entries + [Entry(sc.chunkId(p.data), |p.data| % TWO32, p.offset)],
                    obj + p.data, (p.offset + |p.data|) % TWO64)
  {
    var got' := got + [p.data];
    ConcatSnoc(got, p.data);
    WrapAdd(|obj|, |p.data|);
    assert got'[..|got|] == got;
    forall i | 0 <= i < |got|
      ensures EntriesFor(sc, got')[i] == EntriesFor(sc, got)[i]
    {
      assert got'[..i] == got[..i];
    }
  }

  lemma AllWritten(sc: Scheme, blobs: map<Id, bytes>, all: bytes, entries: seq<Entry>, obj: bytes, offset: uint64)
    requires Written(sc, blobs, Delivered(sc.pol, sc.table, all, Eof), entries, obj, offset)
    ensures obj == all && entries == EntriesFor(sc, sc.Pieces(all)) && ChunksPresent(sc, blobs, all)
  {
    SplitConcat(sc.pol, sc.table, all);
  }
}
