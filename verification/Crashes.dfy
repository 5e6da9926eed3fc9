/** What a disk holds and what a crash leaves of it (store.go, put.go, delete.go): every durable file is a
    value that a step replaces, except the journal, which grows byte by byte. */
module Crashes {
  import opened Bytes
  import opened Sums
  import opened Boundary
  import opened Schemes
  import opened Manifests
  import opened Journals
  import opened Indexes
  import opened Holdings
  import Collecting

  /** The durable files: chunks, manifests, index snapshot, count snapshot, journal. */
  datatype Disk = Disk(
    blobs: map<Id, bytes>,
    raws: map<Id, bytes>,
    index: map<Id, Record>,
    refs: Counts,
    journal: bytes)

  /** What a store answers for: the contents it holds, and those it was removing when it crashed, which it
      may still list and no longer holds. */
  datatype Held = Held(contents: multiset<bytes>, doomed: set<bytes>)

  /** The counts a reopened store starts from. */
  function Recovered(d: Disk, crc: Crc): Replayed {
    Replay(d.refs, d.journal, crc)
  }

  ghost predicate MoreCounted(a: Counts, b: Counts) {
    forall id :: Count(a, id) <= Count(b, id)
  }

  /** Every chunk is counted at least as often as the contents list it. */
  ghost predicate Enough(sc: Scheme, contents: multiset<bytes>, counts: Counts) {
    forall id :: Total(Demand(sc, contents))[id] <= Count(counts, id)
  }

  /** The record and, as long as it is there, the manifest of an object are those of c. */
  ghost predicate Describes(cfg: Config, c: bytes, rec: Record, raws: map<Id, bytes>) {
    && rec == RecordOf(cfg.sc, c, rec.useCount) && |cfg.sc.Pieces(c)| <= MAX_CHUNKS
    && (rec.id in raws ==> raws[rec.id] == RawOf(cfg, c))
  }

  ghost predicate Listed(cfg: Config, known: iset<bytes>, h: Held, objects: map<Id, Record>, raws: map<Id, bytes>) {
    forall o :: o in objects ==>
      && cfg.sc.IsObject(known, o) && objects[o].id == o
      && Describes(cfg, cfg.sc.ContentOf(known, o), objects[o], raws)
      && (cfg.sc.ContentOf(known, o) in h.contents || cfg.sc.ContentOf(known, o) in h.doomed)
  }

  ghost predicate Apart(known: iset<bytes>, h: Held) {
    forall c :: c in h.doomed ==> c in known && c !in h.contents
  }

  /** The tables k hold every one of the contents completely, and index nothing else but the doomed. There
      may be chunks, manifests and counts to spare: that is what a crash can leave behind. */
  ghost predicate Covers(cfg: Config, known: iset<bytes>, h: Held, k: Kept) {
    && HoldsAll(cfg, known, h.contents, k)
    && Listed(cfg, known, h, k.objects, k.raws)
    && Genuine(cfg.sc, known, k.blobs)
    && Enough(cfg.sc, h.contents, k.counts)
    && Apart(known, h)
  }

  /** Reopening d succeeds and finds what h answers for. */
  ghost predicate Survives(cfg: Config, known: iset<bytes>, h: Held, d: Disk) {
    && NoZeros(d.refs) && Recovered(d, cfg.crc).Ok?
    && Covers(cfg, known, h, Kept(d.blobs, Recovered(d, cfg.crc).counts, d.index, d.raws))
  }

  /** A journal of single changes, the last of them perhaps half-written, that cannot wrap a count. */
  ghost predicate Grows(base: Counts, rs: seq<Rec>, torn: bytes) {
    && Units(rs) && |torn| < REC
    && forall id :: Count(base, id) + |rs| < TWO64
  }

  ghost predicate Growing(d: Disk, crc: Crc) {
    exists rs, torn :: Grows(d.refs, rs, torn) && d.journal == Image(rs, crc) + torn
  }

  /** A store that reopens on d finds h and can go on. */
  ghost predicate Safe(cfg: Config, known: iset<bytes>, h: Held, d: Disk) {
    Survives(cfg, known, h, d) && Growing(d, cfg.crc)
  }

  /** The disk d while its journal grows to be file: cut at every byte on the way. */
  ghost function Torn(d: Disk, file: bytes): iset<Disk> {
    iset cut: nat | |d.journal| <= cut <= |file| :: d.(journal := file[..cut])
  }

  /** The disk while tables are persisted: index saved, counts saved beside the old journal, journal emptied. */
  ghost function PersistDisks(d: Disk, index: map<Id, Record>, refs: Counts): iset<Disk> {
    var saved := d.(index := index);
    iset{saved, saved.(refs := refs), saved.(refs := refs, journal := [])}
  }

  /** The records of the journal are rs, and r was appended behind torn bytes of another one. */
  ghost predicate Spoiled(d: Disk, rs: seq<Rec>, torn: bytes, r: Rec, crc: Crc) {
    0 < |torn| < REC && Image(rs, crc) + Mixed(torn, r, crc) <= d.journal
  }

  /** Such a disk does not reopen, unless the mixed frame happens to be intact. */
  lemma SpoiledFails(d: Disk, rs: seq<Rec>, torn: bytes, r: Rec, crc: Crc)
    requires Spoiled(d, rs, torn, r, crc) && !Intact(Mixed(torn, r, crc), crc)
    ensures Recovered(d, crc).Err?
  {
    hide Image, ApplyAll, Replay, Intact, DecodeRec, Mixed, Apply;
    var tail := d.journal[REC * |rs|..];
    assert d.journal == Image(rs, crc) + ([] + tail) && ([] + tail)[..REC] == Mixed(torn, r, crc);
    BehindTorn(d.refs, rs, [], tail, crc);
  }

  // ---- Journals ----

  /** A half-written last record is as good as none. */
  lemma ReplayTorn(base: Counts, rs: seq<Rec>, torn: bytes, crc: Crc)
    requires |torn| < REC
    ensures Replay(base, Image(rs, crc) + torn, crc) == ApplyAll(base, rs)
  {
    hide Image, ApplyAll, Replay, Intact, DecodeRec;
    ReplayImage(base, rs, crc);
    ReplayAppend(base, Image(rs, crc), torn, crc);
    if ApplyAll(base, rs).Ok? {
      ReplayRound(ApplyAll(base, rs).counts, torn, crc);
    }
  }

  /** The first k bytes of a journal are its whole records up to there, and some of the next one. */
  lemma CutImage(rs: seq<Rec>, k: nat, crc: Crc) returns (torn: bytes)
    requires k <= REC * |rs|
    ensures |torn| < REC && Image(rs, crc)[..k] == Image(rs[..k / REC], crc) + torn
  {
    hide Image, EncodeRec;
    var n, file := k / REC, Image(rs, crc);
    ImagePrefix(rs, n, crc);
    torn := file[REC * n..k];
    assert file[..k] == file[..REC * n] + torn;
  }

  lemma {:induction false} NoZerosApplied(base: Counts, rs: seq<Rec>)
    requires NoZeros(base) && ApplyAll(base, rs).Ok?
    ensures NoZeros(ApplyAll(base, rs).counts)
  {
    if rs != [] {
      NoZerosApplied(base, rs[..|rs| - 1]);
    }
  }

  lemma SameCounts(a: Counts, b: Counts)
    requires NoZeros(a) && NoZeros(b) && forall id :: Count(a, id) == Count(b, id)
    ensures a == b
  {
    forall id
      ensures id in a <==> id in b
      ensures id in a ==> a[id] == b[id]
    {
      assert Count(a, id) == Count(b, id);
    }
  }

  /** What a journal makes of the counts when a batch of increments is appended to it. */
  lemma AppliedPlus(base: Counts, rs: seq<Rec>, counts: Counts, ids: seq<Id>, counts': Counts)
    requires NoZeros(base) && NoZeros(counts') && ApplyAll(base, rs) == Ok(counts) && Plus(counts', counts, ids)
    requires forall id :: Count(counts, id) + |ids| < TWO64
    ensures ApplyAll(base, rs + Changes(INC, ids)) == Ok(counts')
  {
    ApplyAppend(base, rs, Changes(INC, ids));
    ApplyIncrements(counts, Changes(INC, ids));
    SumsOfChanges(ids);
    hide ApplyAll, NoZeros, Changes, Added;
    NoZerosApplied(base, rs + Changes(INC, ids));
    SameCounts(ApplyAll(counts, Changes(INC, ids)).counts, counts');
  }

  /** and of decrements. */
  lemma AppliedMinus(base: Counts, rs: seq<Rec>, counts: Counts, ids: seq<Id>, counts': Counts)
    requires NoZeros(base) && NoZeros(counts') && ApplyAll(base, rs) == Ok(counts) && Minus(counts', counts, ids)
    ensures ApplyAll(base, rs + Changes(DEC, ids)) == Ok(counts')
  {
    ApplyAppend(base, rs, Changes(DEC, ids));
    MinusFits(counts', counts, ids);
    ApplyDecrements(counts, ids);
    hide ApplyAll, NoZeros, Changes;
    NoZerosApplied(base, rs + Changes(DEC, ids));
    SameCounts(ApplyAll(counts, Changes(DEC, ids)).counts, counts');
  }

  lemma MinusFits(now: Counts, was: Counts, ids: seq<Id>)
    requires Minus(now, was, ids)
    ensures forall id :: multiset(ids)[id] <= Count(was, id)
  {
    assert forall id :: Count(now, id) >= 0;
  }

  /** The journal behind rs and a torn tail, with one record for every listed chunk appended, cut at any
      byte k: either no more than a tail, or, if there was a tail before, with a mixed frame. */
  lemma CutBehind(rs: seq<Rec>, torn: bytes, op: byte, ids: seq<Id>, k: nat, crc: Crc) returns (tail: bytes)
    requires |torn| < REC
    requires var file := Image(rs, crc) + torn; |file| <= k <= |file| + REC * |ids|
    ensures var cut := (Image(rs, crc) + torn + Image(Changes(op, ids), crc))[..k];
      && (k < REC * (|rs| + 1) ==> |tail| < REC && cut == Image(rs, crc) + tail)
      && (k >= REC * (|rs| + 1) && torn != [] ==>
            ids != [] && Image(rs, crc) + Mixed(torn, Rec(op, ids[0], 1), crc) <= cut)
  {
    hide Image, EncodeRec;
    var a, more := Image(rs, crc), Image(Changes(op, ids), crc);
    var cut := (a + torn + more)[..k];
    tail := cut[|a|..];
    assert cut == a + tail;
    if k >= REC * (|rs| + 1) && torn != [] {
      assert ids != [];
      FirstOfImage(Changes(op, ids), crc);
      var r := EncodeRec(Rec(op, ids[0], 1), crc);
      assert more == r + more[REC..];
      FrameAtFront(torn, r, more[REC..]);
      assert tail == (torn + more)[..k - |a|];
      assert tail[..REC] == (torn + more)[..REC];
      assert a + tail[..REC] <= cut;
    }
  }

  /** The first frame of what lies behind torn bytes. */
  lemma FrameAtFront(torn: bytes, r: bytes, rest: bytes)
    requires |torn| < REC && |r| == REC
    ensures (torn + (r + rest))[..REC] == (torn + r)[..REC]
  {
  }

  lemma FirstOfImage(rs: seq<Rec>, crc: Crc)
    requires rs != []
    ensures |Image(rs, crc)| >= REC && Image(rs, crc)[..REC] == EncodeRec(rs[0], crc)
  {
    hide EncodeRec;
    ImagePrefix(rs, 1, crc);
    assert rs[..1] == [rs[0]];
    assert rs[..1][..0] == [];
    assert Image(rs[..1], crc) == Image([], crc) + EncodeRec(rs[0], crc);
  }

  /** Whatever byte the increments of a Put are cut at, what is recovered is no less than before them. */
  lemma TornIncrements(base: Counts, rs: seq<Rec>, counts: Counts, ids: seq<Id>, k: nat, crc: Crc)
    requires Grows(base, rs + Changes(INC, ids), []) && ApplyAll(base, rs) == Ok(counts)
    requires forall id :: Count(counts, id) + |ids| < TWO64
    requires REC * |rs| <= k <= REC * (|rs| + |ids|)
    ensures var now := Replay(base, Image(rs + Changes(INC, ids), crc)[..k], crc);
      now.Ok? && MoreCounted(counts, now.counts)
  {
    hide Image, ApplyAll, Replay, Added;
    var all, j := rs + Changes(INC, ids), k / REC - |rs|;
    ReplayCut(base, all, k, crc);
    assert all[..k / REC] == rs + Changes(INC, ids[..j]);
    ApplyAppend(base, rs, Changes(INC, ids[..j]));
    ApplyIncrements(counts, Changes(INC, ids[..j]));
  }

  /** Whatever byte the decrements of a Delete are cut at, what is recovered is no less than after all of them. */
  lemma TornDecrements(base: Counts, rs: seq<Rec>, counts: Counts, ids: seq<Id>, k: nat, crc: Crc)
    requires ApplyAll(base, rs) == Ok(counts) && forall id :: multiset(ids)[id] <= Count(counts, id)
    requires REC * |rs| <= k <= REC * (|rs| + |ids|)
    ensures var now := Replay(base, Image(rs + Changes(DEC, ids), crc)[..k], crc);
      now.Ok? && forall id :: Count(now.counts, id) >= Count(counts, id) - multiset(ids)[id]
  {
    hide Image, ApplyAll, Replay;
    var all, j := rs + Changes(DEC, ids), k / REC - |rs|;
    ReplayCut(base, all, k, crc);
    assert all[..k / REC] == rs + Changes(DEC, ids[..j]);
    ApplyAppend(base, rs, Changes(DEC, ids[..j]));
    assert ids == ids[..j] + ids[j..];
    ApplyDecrements(counts, ids[..j]);
  }

  lemma CutGrows(base: Counts, rs: seq<Rec>, k: nat, crc: Crc)
    requires Grows(base, rs, []) && k <= REC * |rs|
    ensures exists some, torn :: Grows(base, some, torn) && Image(rs, crc)[..k] == Image(some, crc) + torn
  {
    hide Image, Grows;
    var torn := CutImage(rs, k, crc);
    FrontGrows(base, rs, k / REC, torn);
  }

  lemma FrontGrows(base: Counts, rs: seq<Rec>, n: nat, torn: bytes)
    requires Grows(base, rs, []) && n <= |rs| && |torn| < REC
    ensures Grows(base, rs[..n], torn)
  {
  }

  // ---- Moving along Covers ----

  lemma OneCovered(cfg: Config, known: iset<bytes>, h: Held, k: Kept, c: bytes)
    requires Covers(cfg, known, h, k) && c in h.contents
    ensures HoldsOne(cfg, known, k, c, h.contents[c])
    ensures forall id :: multiset(cfg.sc.Ids(c))[id] <= Count(k.counts, id)
  {
    hide Genuine, Enough, Listed, HoldsOne, Apart, HoldsAll;
    OneHeld(cfg, known, h.contents, k, c);
    EnoughForOne(cfg.sc, h.contents, k.counts, c);
  }

  lemma EnoughForOne(sc: Scheme, contents: multiset<bytes>, counts: Counts, c: bytes)
    requires Enough(sc, contents, counts) && c in contents
    ensures forall id :: multiset(sc.Ids(c))[id] <= Count(counts, id)
  {
    TotalCovers(Demand(sc, contents), c);
    assert Demand(sc, contents)[c] == multiset(sc.Ids(c));
  }

  /** More chunks do no harm, and other counts none as long as they are enough. */
  lemma OtherCounts(cfg: Config, known: iset<bytes>, h: Held, k: Kept, blobs: map<Id, bytes>, counts: Counts)
    requires Covers(cfg, known, h, k)
    requires Genuine(cfg.sc, known, blobs) && k.blobs.Keys <= blobs.Keys
    ensures Covers(cfg, known, h, Kept(blobs, counts, k.objects, k.raws)) <==> Enough(cfg.sc, h.contents, counts)
  {
    hide Genuine, RawOf, RecordOf, Enough, Listed, Apart, Scheme.Pieces, Scheme.Ids;
    var k' := Kept(blobs, counts, k.objects, k.raws);
    forall c | c in h.contents
      ensures HoldsOne(cfg, known, k', c, h.contents[c])
    {
      OneHeld(cfg, known, h.contents, k, c);
    }
  }

  lemma EnoughMore(sc: Scheme, contents: multiset<bytes>, a: Counts, b: Counts)
    requires Enough(sc, contents, a) && MoreCounted(a, b)
    ensures Enough(sc, contents, b)
  {
    hide Total, Demand;
    forall id
      ensures Total(Demand(sc, contents))[id] <= Count(b, id)
    {
      assert Count(a, id) <= Count(b, id);
    }
  }

  lemma CoveredMore(cfg: Config, known: iset<bytes>, h: Held, k: Kept, counts: Counts)
    requires Covers(cfg, known, h, k) && MoreCounted(k.counts, counts)
    ensures Covers(cfg, known, h, Kept(k.blobs, counts, k.objects, k.raws))
  {
    hide Genuine, Enough, Listed, Apart, HoldsAll, MoreCounted;
    EnoughMore(cfg.sc, h.contents, k.counts, counts);
    hide Covers;
    GenuineCovered(cfg, known, h, k);
    OtherCounts(cfg, known, h, k, k.blobs, counts);
  }

  lemma GenuineCovered(cfg: Config, known: iset<bytes>, h: Held, k: Kept)
    requires Covers(cfg, known, h, k)
    ensures Genuine(cfg.sc, known, k.blobs) && Enough(cfg.sc, h.contents, k.counts)
  {
  }

  /** The chunks of c once the first n of them are written. */
  function Chunked(sc: Scheme, blobs: map<Id, bytes>, c: bytes, n: nat): map<Id, bytes>
    requires n <= |sc.Pieces(c)|
  {
    if n == 0 then blobs
    else
      var before, p := Chunked(sc, blobs, c, n - 1), sc.Pieces(c)[n - 1];
      if sc.chunkId(p) in before then before else before[sc.chunkId(p) := p]
  }

  /** The disk while up to n chunks of c are being written. */
  ghost function ChunkDisks(sc: Scheme, d: Disk, c: bytes, n: nat): iset<Disk>
    requires n <= |sc.Pieces(c)|
  {
    iset i: nat | i <= n :: d.(blobs := Chunked(sc, d.blobs, c, i))
  }

  lemma OneMoreChunk(sc: Scheme, d: Disk, c: bytes, n: nat)
    requires n <= |sc.Pieces(c)|
    ensures n == 0 ==> ChunkDisks(sc, d, c, n) == iset{d} && Chunked(sc, d.blobs, c, n) == d.blobs
    ensures n > 0 ==>
              ChunkDisks(sc, d, c, n) == ChunkDisks(sc, d, c, n - 1) + iset{d.(blobs := Chunked(sc, d.blobs, c, n))}
    ensures n > 0 ==>
              var before, p := Chunked(sc, d.blobs, c, n - 1), sc.Pieces(c)[n - 1];
              Chunked(sc, d.blobs, c, n) == if sc.chunkId(p) in before then before else before[sc.chunkId(p) := p]
  {
    hide Scheme.Pieces;
    assert n == 0 ==> d.(blobs := Chunked(sc, d.blobs, c, 0)) == d;
  }

  lemma PieceKnown(sc: Scheme, known: iset<bytes>, c: bytes, i: nat)
    requires sc.Sound(known) && c in known && i < |sc.Pieces(c)|
    ensures sc.Pieces(c)[i] in known && sc.Ids(c)[i] == sc.chunkId(sc.Pieces(c)[i])
  {
  }

  lemma {:induction false} ChunkedGenuine(sc: Scheme, known: iset<bytes>, blobs: map<Id, bytes>, c: bytes, n: nat)
    requires sc.Sound(known) && Genuine(sc, known, blobs) && c in known && n <= |sc.Pieces(c)|
    ensures Genuine(sc, known, Chunked(sc, blobs, c, n)) && blobs.Keys <= Chunked(sc, blobs, c, n).Keys
    ensures forall i :: 0 <= i < n ==> sc.Ids(c)[i] in Chunked(sc, blobs, c, n)
  {
    hide Scheme.Pieces, Scheme.Ids, Scheme.Sound;
    if n > 0 {
      ChunkedGenuine(sc, known, blobs, c, n - 1);
      PieceKnown(sc, known, c, n - 1);
    }
  }

  /** Chunks written ahead do no harm. */
  lemma ChunksAhead(cfg: Config, known: iset<bytes>, h: Held, k: Kept, c: bytes, n: nat)
    requires cfg.sc.Sound(known) && Covers(cfg, known, h, k) && c in known && n <= |cfg.sc.Pieces(c)|
    ensures Covers(cfg, known, h, k.(blobs := Chunked(cfg.sc, k.blobs, c, n)))
    ensures n == |cfg.sc.Pieces(c)| ==> ChunksPresent(cfg.sc, Chunked(cfg.sc, k.blobs, c, n), c)
  {
    hide Covers, Genuine, Chunked, Enough;
    GenuineCovered(cfg, known, h, k);
    ChunkedGenuine(cfg.sc, known, k.blobs, c, n);
    OtherCounts(cfg, known, h, k, Chunked(cfg.sc, k.blobs, c, n), k.counts);
  }

  /** A manifest written before its object is entered does no harm. */
  lemma ManifestAhead(cfg: Config, known: iset<bytes>, h: Held, k: Kept, c: bytes)
    requires cfg.sc.Sound(known) && Covers(cfg, known, h, k) && c in known
    ensures Covers(cfg, known, h, k.(raws := k.raws[cfg.sc.objectId(c) := RawOf(cfg, c)]))
  {
    hide Genuine, RawOf, RecordOf, Enough, Listed, ChunksPresent, Scheme.Sound, Apart, Describes;
    var k' := k.(raws := k.raws[cfg.sc.objectId(c) := RawOf(cfg, c)]);
    FiledAgain(cfg, known, h, k.objects, k.raws, c);
    forall d | d in h.contents
      ensures HoldsOne(cfg, known, k', d, h.contents[d])
    {
      OneHeld(cfg, known, h.contents, k, d);
      if d != c { OtherObject(cfg, known, c, d); }
    }
  }

  lemma FiledAgain(cfg: Config, known: iset<bytes>, h: Held, objects: map<Id, Record>, raws: map<Id, bytes>, c: bytes)
    requires cfg.sc.Sound(known) && Listed(cfg, known, h, objects, raws) && c in known
    ensures Listed(cfg, known, h, objects, raws[cfg.sc.objectId(c) := RawOf(cfg, c)])
  {
    hide RawOf, RecordOf, Scheme.Sound, Scheme.Pieces;
    cfg.sc.ContentUnique(known, c);
  }

  /** Only the record of c's object and its manifest have changed, or gone, and c is in or out accordingly. */
  lemma StillListed(cfg: Config, known: iset<bytes>, h: Held, objects: map<Id, Record>, raws: map<Id, bytes>,
                    h': Held, objects': map<Id, Record>, raws': map<Id, bytes>, c: bytes)
    requires cfg.sc.Sound(known) && Listed(cfg, known, h, objects, raws) && c in known
    requires forall d :: d != c ==> (d in h.contents ==> d in h'.contents) && (d in h.doomed ==> d in h'.doomed)
    requires forall o :: o in objects' && o != cfg.sc.objectId(c) ==> o in objects && objects'[o] == objects[o]
    requires forall o :: o in raws' && o != cfg.sc.objectId(c) ==> o in raws && raws'[o] == raws[o]
    requires var o := cfg.sc.objectId(c);
      o in objects' ==>
        objects'[o].id == o && Describes(cfg, c, objects'[o], raws') && (c in h'.contents || c in h'.doomed)
    ensures Listed(cfg, known, h', objects', raws')
  {
    hide RawOf, RecordOf, Scheme.Sound, Scheme.Pieces;
    cfg.sc.ContentUnique(known, c);
  }

  lemma ListedOne(cfg: Config, known: iset<bytes>, h: Held, objects: map<Id, Record>, raws: map<Id, bytes>, c: bytes)
    requires cfg.sc.Sound(known) && Listed(cfg, known, h, objects, raws) && c in known
    ensures cfg.sc.objectId(c) in objects ==>
              && objects[cfg.sc.objectId(c)].id == cfg.sc.objectId(c)
              && Describes(cfg, c, objects[cfg.sc.objectId(c)], raws) && (c in h.contents || c in h.doomed)
  {
    hide RawOf, RecordOf, Scheme.Sound, Scheme.Pieces;
    cfg.sc.ContentUnique(known, c);
  }

  /** A record of c, beside the manifest of c or none. */
  lemma RecordDescribes(cfg: Config, c: bytes, n: uint32, raws: map<Id, bytes>)
    requires |cfg.sc.Pieces(c)| <= MAX_CHUNKS
    requires var o := cfg.sc.objectId(c); o in raws ==> raws[o] == RawOf(cfg, c)
    ensures RecordOf(cfg.sc, c, n).id == cfg.sc.objectId(c) && Describes(cfg, c, RecordOf(cfg.sc, c, n), raws)
  {
    hide RawOf;
  }

  lemma EnoughForMore(sc: Scheme, contents: multiset<bytes>, c: bytes, before: Counts, counts: Counts)
    requires c !in contents && Enough(sc, contents, before) && Plus(counts, before, sc.Ids(c))
    ensures Enough(sc, contents + multiset{c}, counts)
  {
    DemandOfMore(sc, contents, c);
    hide Total, Demand;
  }

  /** What is held once a first copy of c is entered. */
  function WithFirst(h: Held, c: bytes): Held {
    Held(h.contents + multiset{c}, h.doomed - {c})
  }

  /** With chunks, manifest and record in place, c is held exactly if the counts are enough. */
  lemma EnoughAsListed(cfg: Config, known: iset<bytes>, h: Held, k: Kept, c: bytes, counts: Counts)
    requires cfg.sc.Sound(known) && Covers(cfg, known, h, k)
    requires c in known && c !in h.contents && |cfg.sc.Pieces(c)| <= MAX_CHUNKS && ChunksPresent(cfg.sc, k.blobs, c)
    requires var o := cfg.sc.objectId(c); o in k.raws && k.raws[o] == RawOf(cfg, c)
    ensures var index := k.objects[cfg.sc.objectId(c) := RecordOf(cfg.sc, c, 1)];
      Covers(cfg, known, WithFirst(h, c), Kept(k.blobs, counts, index, k.raws))
      <==> Enough(cfg.sc, WithFirst(h, c).contents, counts)
  {
    hide Genuine, RawOf, Enough, Listed, ChunksPresent, Scheme.Sound, HoldsAll;
    var o, h' := cfg.sc.objectId(c), WithFirst(h, c);
    var k' := Kept(k.blobs, counts, k.objects[o := RecordOf(cfg.sc, c, 1)], k.raws);
    assert h'.contents[c] == 1;
    RecordDescribes(cfg, c, 1, k.raws);
    OthersHeld(cfg, known, h.contents, h'.contents, k, k', c);
    StillListed(cfg, known, h, k.objects, k.raws, h', k'.objects, k.raws, c);
  }

  /** The first copy of a content is entered once its chunks, its manifest and its counts are there. */
  lemma FirstCovers(cfg: Config, known: iset<bytes>, h: Held, k: Kept, c: bytes, counts: Counts)
    requires cfg.sc.Sound(known) && Covers(cfg, known, h, k)
    requires c in known && c !in h.contents && |cfg.sc.Pieces(c)| <= MAX_CHUNKS && ChunksPresent(cfg.sc, k.blobs, c)
    requires var o := cfg.sc.objectId(c); o in k.raws && k.raws[o] == RawOf(cfg, c)
    requires Plus(counts, k.counts, cfg.sc.Ids(c))
    ensures Covers(cfg, known, WithFirst(h, c),
                   Kept(k.blobs, counts, k.objects[cfg.sc.objectId(c) := RecordOf(cfg.sc, c, 1)], k.raws))
  {
    hide Covers, RawOf, RecordOf, Enough, ChunksPresent, Scheme.Sound, Plus;
    GenuineCovered(cfg, known, h, k);
    EnoughForMore(cfg.sc, h.contents, c, k.counts, counts);
    EnoughAsListed(cfg, known, h, k, c, counts);
  }

  /** The number of copies of a held content changes, but not to none. */
  lemma CopiesCovers(cfg: Config, known: iset<bytes>, h: Held, contents: multiset<bytes>, k: Kept, c: bytes)
    requires cfg.sc.Sound(known) && Covers(cfg, known, h, k)
    requires c in h.contents && 0 < contents[c] < TWO32 && forall d :: d != c ==> contents[d] == h.contents[d]
    ensures Covers(cfg, known, h.(contents := contents),
                   k.(objects := k.objects[cfg.sc.objectId(c) := RecordOf(cfg.sc, c, contents[c])]))
  {
    hide Genuine, RawOf, Listed, ChunksPresent, Scheme.Sound, HoldsAll, Enough;
    var o, h' := cfg.sc.objectId(c), h.(contents := contents);
    var k' := k.(objects := k.objects[o := RecordOf(cfg.sc, c, contents[c])]);
    SameNeed(cfg.sc, h.contents, contents, k.counts);
    OneHeld(cfg, known, h.contents, k, c);
    RecordDescribes(cfg, c, contents[c], k.raws);
    OthersHeld(cfg, known, h.contents, contents, k, k', c);
    StillListed(cfg, known, h, k.objects, k.raws, h', k'.objects, k.raws, c);
  }

  /** The use count of a doomed content may change in any way. */
  lemma DoomedRecord(cfg: Config, known: iset<bytes>, h: Held, k: Kept, c: bytes, n: uint32)
    requires cfg.sc.Sound(known) && Covers(cfg, known, h, k) && c in h.doomed && cfg.sc.objectId(c) in k.objects
    ensures Covers(cfg, known, h, k.(objects := k.objects[cfg.sc.objectId(c) := RecordOf(cfg.sc, c, n)]))
  {
    hide Genuine, RawOf, Listed, ChunksPresent, Scheme.Sound, HoldsAll, Enough;
    var k' := k.(objects := k.objects[cfg.sc.objectId(c) := RecordOf(cfg.sc, c, n)]);
    ListedOne(cfg, known, h, k.objects, k.raws, c);
    RecordDescribes(cfg, c, n, k.raws);
    OthersHeld(cfg, known, h.contents, h.contents, k, k', c);
    StillListed(cfg, known, h, k.objects, k.raws, h, k'.objects, k.raws, c);
  }

  /** What is held if a doomed content turns out to be there after all, n times. */
  function Revived(h: Held, c: bytes, n: nat): Held {
    Held(h.contents[c := n], h.doomed - {c})
  }

  /** What a Delete that crashed has left of c: is its manifest still there, and are its chunks counted beside
      what the others need? */
  ghost predicate Whole(sc: Scheme, h: Held, raws: map<Id, bytes>, counts: Counts, c: bytes) {
    sc.objectId(c) in raws && Enough(sc, h.contents + multiset{c}, counts)
  }

  /** A doomed content that is listed with n copies, and all of whose chunks are written: it is held exactly if
      it is whole. */
  lemma RevivedCovers(cfg: Config, known: iset<bytes>, h: Held, k: Kept, c: bytes, n: uint32)
    requires cfg.sc.Sound(known) && Covers(cfg, known, h, k) && c in h.doomed && 0 < n
    requires cfg.sc.objectId(c) in k.objects && ChunksPresent(cfg.sc, k.blobs, c)
    ensures Covers(cfg, known, Revived(h, c, n), k.(objects := k.objects[cfg.sc.objectId(c) := RecordOf(cfg.sc, c, n)]))
       <==> Whole(cfg.sc, h, k.raws, k.counts, c)
  {
    hide Genuine, RawOf, Listed, ChunksPresent, Scheme.Sound, HoldsAll, Enough;
    var o, h' := cfg.sc.objectId(c), Revived(h, c, n);
    var k' := k.(objects := k.objects[o := RecordOf(cfg.sc, c, n)]);
    ListedOne(cfg, known, h, k.objects, k.raws, c);
    RecordDescribes(cfg, c, n, k.raws);
    SameNeed(cfg.sc, h.contents + multiset{c}, h'.contents, k.counts);
    StillListed(cfg, known, h, k.objects, k.raws, h', k'.objects, k.raws, c);
    if o in k.raws {
      OthersHeld(cfg, known, h.contents, h'.contents, k, k', c);
    } else if Covers(cfg, known, h', k') {
      OneHeld(cfg, known, h'.contents, k', c);
    }
  }

  /** What holds c n times over has its manifest and its counts. */
  lemma RevivedNeeds(cfg: Config, known: iset<bytes>, h: Held, k: Kept, c: bytes, n: nat)
    requires 0 < n && Covers(cfg, known, Revived(h, c, n), k)
    ensures Whole(cfg.sc, h, k.raws, k.counts, c)
  {
    hide Genuine, RawOf, Listed, ChunksPresent, HoldsAll, Enough, RecordOf, Apart;
    OneHeld(cfg, known, Revived(h, c, n).contents, k, c);
    SameNeed(cfg.sc, h.contents + multiset{c}, Revived(h, c, n).contents, k.counts);
  }

  lemma SameNeed(sc: Scheme, contents: multiset<bytes>, contents': multiset<bytes>, counts: Counts)
    requires forall c :: c in contents <==> c in contents'
    ensures Enough(sc, contents, counts) <==> Enough(sc, contents', counts)
  {
    assert Demand(sc, contents') == Demand(sc, contents);
    hide Demand, Total;
  }

  /** The record of a held content, and of one more copy of it. */
  lemma RecordAgain(cfg: Config, known: iset<bytes>, h: Held, k: Kept, c: bytes)
    requires Covers(cfg, known, h, k) && c in h.contents && h.contents[c] + 1 < TWO32
    ensures var o := cfg.sc.objectId(c);
      && o in k.objects && k.objects[o].id == o
      && k.objects[o].(useCount := (k.objects[o].useCount + 1) % TWO32) == RecordOf(cfg.sc, c, h.contents[c] + 1)
  {
    hide Genuine, Enough, Listed, ChunksPresent, HoldsAll, RawOf, Scheme.Sound, Apart;
    OneHeld(cfg, known, h.contents, k, c);
  }

  function WithCopy(h: Held, c: bytes): Held {
    h.(contents := h.contents + multiset{c})
  }

  /** What is held after a Put of c, whose object was indexed or not, has come to an end, or has been refused;
      n is the use count now. A doomed object that is still listed only gains a copy: its content is held
      exactly if a crashed Delete has left it whole. */
  ghost function AfterPut(sc: Scheme, h: Held, raws: map<Id, bytes>, counts: Counts, c: bytes, indexed: bool, ok: bool,
                          n: nat): Held {
    if !ok then h
    else if !indexed then WithFirst(h, c)
    else if c in h.contents then WithCopy(h, c)
    else if 0 < n && Whole(sc, h, raws, counts, c) then Revived(h, c, n)
    else h
  }

  /** One more copy of an indexed object, held or doomed. */
  lemma AgainCovers(cfg: Config, known: iset<bytes>, h: Held, k: Kept, c: bytes)
    requires cfg.sc.Sound(known) && Covers(cfg, known, h, k) && c in known && cfg.sc.objectId(c) in k.objects
    requires c in h.contents ==> h.contents[c] + 1 < TWO32
    requires ChunksPresent(cfg.sc, k.blobs, c)
    ensures var o := cfg.sc.objectId(c);
      var rec := OneMoreCopy(k.objects[o]);
      && rec.id == o
      && Covers(cfg, known, AfterPut(cfg.sc, h, k.raws, k.counts, c, true, true, rec.useCount),
                k.(objects := k.objects[o := rec]))
      && (c !in h.contents && 0 < rec.useCount ==>
            c in h.doomed
            && (Covers(cfg, known, Revived(h, c, rec.useCount), k.(objects := k.objects[o := rec]))
                <==> Whole(cfg.sc, h, k.raws, k.counts, c)))
  {
    hide Covers, RecordOf, Scheme.Sound, Whole, ChunksPresent;
    var rec := k.objects[cfg.sc.objectId(c)];
    var n := (rec.useCount + 1) % TWO32;
    if c in h.contents {
      RecordAgain(cfg, known, h, k, c);
      CopiesCovers(cfg, known, h, h.contents + multiset{c}, k, c);
    } else {
      ListedDoomed(cfg, known, h, k, c);
      OtherUse(cfg.sc, c, rec, n);
      DoomedRecord(cfg, known, h, k, c, n);
      if 0 < n {
        RevivedCovers(cfg, known, h, k, c, n);
      }
    }
  }

  lemma OtherUse(sc: Scheme, c: bytes, rec: Record, n: uint32)
    requires rec == RecordOf(sc, c, rec.useCount)
    ensures rec.(useCount := n) == RecordOf(sc, c, n) && rec.id == sc.objectId(c)
  {
  }

  lemma ListedDoomed(cfg: Config, known: iset<bytes>, h: Held, k: Kept, c: bytes)
    requires cfg.sc.Sound(known) && Covers(cfg, known, h, k) && c in known && c !in h.contents
    requires cfg.sc.objectId(c) in k.objects
    ensures c in h.doomed && |cfg.sc.Pieces(c)| <= MAX_CHUNKS
    ensures var rec := k.objects[cfg.sc.objectId(c)];
      rec.id == cfg.sc.objectId(c) && rec == RecordOf(cfg.sc, c, rec.useCount)
    ensures var o := cfg.sc.objectId(c); o in k.raws ==> k.raws[o] == RawOf(cfg, c)
  {
    hide HoldsAll, Genuine, Enough, Listed, Scheme.Sound, RecordOf, RawOf;
    ListedOne(cfg, known, h, k.objects, k.raws, c);
  }

  /** The record of one copy more; its use count wraps. */
  function OneMoreCopy(rec: Record): Record {
    rec.(useCount := (rec.useCount + 1) % TWO32)
  }

  /** The record of one copy less. */
  function FewerCopies(rec: Record): Record
    requires rec.useCount > 0
  {
    rec.(useCount := rec.useCount - 1)
  }

  /** One copy less of an indexed object, held or doomed. */
  lemma FewerCovers(cfg: Config, known: iset<bytes>, h: Held, k: Kept, c: bytes)
    requires cfg.sc.Sound(known) && Covers(cfg, known, h, k) && (c in h.contents || c in h.doomed)
    requires var o := cfg.sc.objectId(c);
      && o in k.objects && k.objects[o].useCount > 1 && k.objects[o] == RecordOf(cfg.sc, c, k.objects[o].useCount)
      && (c in h.contents ==> k.objects[o].useCount == h.contents[c])
    ensures var o := cfg.sc.objectId(c);
      Covers(cfg, known, if c in h.contents then Without(h, c) else h,
             k.(objects := k.objects[o := FewerCopies(k.objects[o])]))
  {
    hide Covers, Scheme.Sound, RecordOf;
    var rec := k.objects[cfg.sc.objectId(c)];
    OtherUse(cfg.sc, c, rec, rec.useCount - 1);
    if c in h.contents {
      CopiesCovers(cfg, known, h, h.contents - multiset{c}, k, c);
    } else {
      DoomedRecord(cfg, known, h, k, c, rec.useCount - 1);
    }
  }

  lemma EnoughForLess(sc: Scheme, contents: multiset<bytes>, c: bytes, before: Counts, counts: Counts)
    requires contents[c] == 1 && Enough(sc, contents, before)
    requires forall id :: Count(counts, id) >= Count(before, id) - multiset(sc.Ids(c))[id]
    ensures Enough(sc, contents - multiset{c}, counts)
  {
    DemandOfLess(sc, contents, c);
    hide Total, Demand;
  }

  /** What is held while the last copy of c is being removed, and after. */
  function Dooming(h: Held, c: bytes): Held {
    Held(h.contents - multiset{c}, h.doomed + {c})
  }

  function Without(h: Held, c: bytes): Held {
    h.(contents := h.contents - multiset{c})
  }

  /** While the last copy of a content is being taken away, all the others are covered. */
  lemma DoomedCovers(cfg: Config, known: iset<bytes>, h: Held, k: Kept, c: bytes, k': Kept)
    requires cfg.sc.Sound(known) && Covers(cfg, known, h, k) && h.contents[c] == 1
    requires k'.blobs == k.blobs && k'.objects == k.objects
    requires k'.raws == k.raws || k'.raws == k.raws - {cfg.sc.objectId(c)}
    requires forall id :: Count(k'.counts, id) >= Count(k.counts, id) - multiset(cfg.sc.Ids(c))[id]
    ensures Covers(cfg, known, Dooming(h, c), k')
  {
    hide Genuine, RawOf, RecordOf, ChunksPresent, Scheme.Sound, Enough, HoldsAll, Listed;
    EnoughForLess(cfg.sc, h.contents, c, k.counts, k'.counts);
    OneHeld(cfg, known, h.contents, k, c);
    OthersStay(cfg, known, h.contents, k, c, k');
    OneHeldListed(cfg, known, h, k, c);
    StillListed(cfg, known, h, k.objects, k.raws, Dooming(h, c), k.objects, k'.raws, c);
  }

  lemma OneHeldListed(cfg: Config, known: iset<bytes>, h: Held, k: Kept, c: bytes)
    requires HoldsOne(cfg, known, k, c, h.contents[c]) && c in h.contents
    ensures cfg.sc.objectId(c) in k.objects && k.objects[cfg.sc.objectId(c)].id == cfg.sc.objectId(c) && c in known
    ensures Describes(cfg, c, k.objects[cfg.sc.objectId(c)], k.raws)
    ensures Describes(cfg, c, k.objects[cfg.sc.objectId(c)], k.raws - {cfg.sc.objectId(c)})
  {
    hide RawOf, ChunksPresent;
  }

  lemma OthersStay(cfg: Config, known: iset<bytes>, contents: multiset<bytes>, k: Kept, c: bytes, k': Kept)
    requires cfg.sc.Sound(known) && HoldsAll(cfg, known, contents, k) && c in known && contents[c] <= 1
    requires k'.blobs == k.blobs && (k'.objects == k.objects || k'.objects == k.objects - {cfg.sc.objectId(c)})
    requires k'.raws == k.raws || k'.raws == k.raws - {cfg.sc.objectId(c)}
    ensures HoldsAll(cfg, known, contents - multiset{c}, k')
  {
    hide RawOf, RecordOf, ChunksPresent, Scheme.Sound;
    var contents' := contents - multiset{c};
    forall d | d in contents'
      ensures HoldsOne(cfg, known, k', d, contents'[d])
    {
      assert d != c;
      OneHeld(cfg, known, contents, k, d);
      OtherObject(cfg, known, c, d);
    }
  }

  /** Out of the index, it is gone. */
  lemma GoneCovers(cfg: Config, known: iset<bytes>, h: Held, k: Kept, c: bytes)
    requires cfg.sc.Sound(known) && Covers(cfg, known, h, k) && c in h.doomed
    ensures Covers(cfg, known, h.(doomed := h.doomed - {c}), k.(objects := k.objects - {cfg.sc.objectId(c)}))
    ensures Covers(cfg, known, h, k.(objects := k.objects - {cfg.sc.objectId(c)}))
  {
    hide Genuine, RawOf, RecordOf, ChunksPresent, Enough, HoldsAll, Scheme.Sound, Listed;
    var k' := k.(objects := k.objects - {cfg.sc.objectId(c)});
    OthersStay(cfg, known, h.contents, k, c, k');
    assert h.contents - multiset{c} == h.contents;
    StillListed(cfg, known, h, k.objects, k.raws, h.(doomed := h.doomed - {c}), k'.objects, k'.raws, c);
    StillListed(cfg, known, h, k.objects, k.raws, h, k'.objects, k'.raws, c);
  }

  /** What a collection removes is no chunk of any content. */
  lemma SweptCovers(cfg: Config, known: iset<bytes>, h: Held, k: Kept, gone: set<Id>)
    requires Covers(cfg, known, h, k) && gone <= Collecting.Dead(k.blobs, k.counts)
    ensures Covers(cfg, known, h, k.(blobs := k.blobs - gone))
  {
    hide RawOf, RecordOf, ChunksPresent, Enough, Listed, Apart;
    forall c | c in h.contents
      ensures HoldsOne(cfg, known, k.(blobs := k.blobs - gone), c, h.contents[c])
    {
      OneHeld(cfg, known, h.contents, k, c);
      NoneSwept(cfg.sc, h.contents, k.counts, c, k.blobs, gone);
    }
  }

  lemma NoneSwept(sc: Scheme, contents: multiset<bytes>, counts: Counts, c: bytes, blobs: map<Id, bytes>, gone: set<Id>)
    requires Enough(sc, contents, counts) && c in contents && ChunksPresent(sc, blobs, c)
    requires forall id :: id in gone ==> Count(counts, id) == 0
    ensures ChunksPresent(sc, blobs - gone, c)
  {
    EnoughForOne(sc, contents, counts, c);
    forall i | 0 <= i < |sc.Pieces(c)|
      ensures sc.Ids(c)[i] !in gone
    {
      assert sc.Ids(c)[i] in multiset(sc.Ids(c));
    }
  }

  // ---- Safe states ----

  lemma AsMany(counts: Counts)
    ensures MoreCounted(counts, counts)
  {
  }

  /** Tables k beside a snapshot and a journal that together count no less. */
  lemma SafeWith(cfg: Config, known: iset<bytes>, h: Held, k: Kept, base: Counts, rs: seq<Rec>, torn: bytes)
    requires Covers(cfg, known, h, k) && NoZeros(base) && Grows(base, rs, torn)
    requires ApplyAll(base, rs).Ok? && MoreCounted(k.counts, ApplyAll(base, rs).counts)
    ensures Safe(cfg, known, h, Disk(k.blobs, k.raws, k.objects, base, Image(rs, cfg.crc) + torn))
  {
    hide Covers, MoreCounted, Image, ApplyAll, Replay, NoZeros;
    ReplayTorn(base, rs, torn, cfg.crc);
    CoveredMore(cfg, known, h, k, ApplyAll(base, rs).counts);
  }

  lemma NoRecords(counts: Counts, crc: Crc)
    ensures Grows(counts, [], []) && ApplyAll(counts, []) == Ok(counts) && Image([], crc) + [] == []
  {
  }

  /** The tables k saved and the journal emptied. */
  lemma CleanSafe(cfg: Config, known: iset<bytes>, h: Held, k: Kept)
    requires Covers(cfg, known, h, k) && NoZeros(k.counts)
    ensures Safe(cfg, known, h, Disk(k.blobs, k.raws, k.objects, k.counts, []))
  {
    hide Covers, Grows, Image, ApplyAll, NoZeros, MoreCounted, Safe;
    NoRecords(k.counts, cfg.crc);
    AsMany(k.counts);
    SafeWith(cfg, known, h, k, k.counts, [], []);
  }

  /** Once counts are saved and until the journal beside them is emptied, a replay makes its changes a second
      time. That goes well exactly if they can be made a second time and leave enough. */
  ghost predicate Again(sc: Scheme, contents: multiset<bytes>, counts: Counts, rs: seq<Rec>) {
    && Payable(counts, rs)
    && forall id :: Total(Demand(sc, contents))[id] + Taken(rs)[id] <= Count(counts, id) + Added(rs)[id]
  }

  lemma EnoughBalanced(sc: Scheme, contents: multiset<bytes>, now: Counts, counts: Counts, rs: seq<Rec>)
    requires Balanced(now, counts, rs)
    ensures Enough(sc, contents, now) <==>
              forall id :: Total(Demand(sc, contents))[id] + Taken(rs)[id] <= Count(counts, id) + Added(rs)[id]
  {
    hide Total, Demand, Taken, Added;
    assert forall id :: Count(now, id) == Count(counts, id) + Added(rs)[id] - Taken(rs)[id];
  }

  /** The window of any persist: whatever single changes the journal holds, whatever else is still listed. */
  lemma WindowExact(cfg: Config, known: iset<bytes>, h: Held, k: Kept, rs: seq<Rec>, torn: bytes)
    requires Covers(cfg, known, h, k) && NoZeros(k.counts) && Grows(k.counts, rs, torn)
    ensures var d := Disk(k.blobs, k.raws, k.objects, k.counts, Image(rs, cfg.crc) + torn);
      && (Survives(cfg, known, h, d) <==> Again(cfg.sc, h.contents, k.counts, rs))
      && (Safe(cfg, known, h, d) <==> Survives(cfg, known, h, d))
  {
    hide Covers, Image, ApplyAll, Replay, NoZeros, Payable, Balanced, Taken, Added, Total, Demand, Enough;
    ReplayTorn(k.counts, rs, torn, cfg.crc);
    ApplyUnits(k.counts, rs);
    if ApplyAll(k.counts, rs).Ok? {
      var now := ApplyAll(k.counts, rs).counts;
      EnoughBalanced(cfg.sc, h.contents, now, k.counts, rs);
      GenuineCovered(cfg, known, h, k);
      OtherCounts(cfg, known, h, k, k.blobs, now);
    }
  }

  /** With nothing but increments in the journal it always goes well. */
  lemma IncrementsAgain(sc: Scheme, contents: multiset<bytes>, counts: Counts, rs: seq<Rec>)
    requires Enough(sc, contents, counts) && Increments(rs)
    ensures Again(sc, contents, counts, rs)
  {
    hide Total, Demand, Added;
    NothingTaken(rs);
    forall i | 0 <= i <= |rs|
      ensures Paid(counts, rs[..i])
    {
      NothingTaken(rs[..i]);
    }
  }

  /** The states of persist when the tables k are saved beside a journal rs that has led to them: the first
      and the last are safe, and the one between exactly under the condition above. */
  lemma PersistStates(cfg: Config, known: iset<bytes>, h: Held, k: Kept, d: Disk, rs: seq<Rec>, torn: bytes)
    requires Covers(cfg, known, h, k) && NoZeros(d.refs) && NoZeros(k.counts)
    requires d.blobs == k.blobs && d.raws == k.raws && d.journal == Image(rs, cfg.crc) + torn
    requires Grows(d.refs, rs, torn) && ApplyAll(d.refs, rs) == Ok(k.counts) && Grows(k.counts, rs, torn)
    ensures var saved := d.(index := k.objects);
      && Safe(cfg, known, h, saved)
      && Safe(cfg, known, h, saved.(refs := k.counts, journal := []))
      && (Survives(cfg, known, h, saved.(refs := k.counts)) <==> Again(cfg.sc, h.contents, k.counts, rs))
      && (Safe(cfg, known, h, saved.(refs := k.counts)) <==> Survives(cfg, known, h, saved.(refs := k.counts)))
  {
    hide Covers, Grows, Image, ApplyAll, NoZeros, MoreCounted, Safe, Survives, Again;
    AsMany(k.counts);
    SafeWith(cfg, known, h, k, d.refs, rs, torn);
    CleanSafe(cfg, known, h, k);
    WindowExact(cfg, known, h, k, rs, torn);
  }

  // ---- Room ----

  /** Counts with room for the pending records and n more; so has the snapshot they were replayed over. */
  lemma RoomBelow(base: Counts, rs: seq<Rec>, torn: bytes, counts: Counts, n: nat)
    requires Grows(base, rs, torn) && ApplyAll(base, rs) == Ok(counts)
    requires forall id :: Count(counts, id) + 2 * |rs| + n < TWO64
    ensures forall id :: Count(base, id) + |rs| + n < TWO64
  {
    ApplyUnits(base, rs);
    hide ApplyAll, Added, Taken;
    forall id
      ensures Count(base, id) + |rs| + n < TWO64
    {
      SumsBound(rs, id);
      assert Count(counts, id) == Count(base, id) + Added(rs)[id] - Taken(rs)[id];
    }
  }

  lemma GrowsWith(base: Counts, rs: seq<Rec>, torn: bytes, op: byte, ids: seq<Id>)
    requires Grows(base, rs, torn) && (op == INC || op == DEC)
    requires forall id :: Count(base, id) + |rs| + |ids| < TWO64
    ensures Grows(base, rs + Changes(op, ids), [])
    ensures ids == [] ==> rs + Changes(op, ids) == rs
  {
    var all := rs + Changes(op, ids);
    forall i | 0 <= i < |all|
      ensures (all[i].op == INC || all[i].op == DEC) && all[i].n == 1
    {
      if i < |rs| { assert all[i] == rs[i]; }
    }
  }

  lemma RoomPlus(counts: Counts, now: Counts, ids: seq<Id>, n: nat)
    requires Plus(now, counts, ids) || Minus(now, counts, ids)
    requires forall id :: Count(counts, id) + n + |ids| < TWO64
    ensures forall id :: Count(now, id) + n < TWO64
  {
    forall id
      ensures Count(now, id) + n < TWO64
    {
      AtMostAll(ids, id);
    }
  }

  // ---- The states of a Put ----

  /** The disk while a first copy of c is entered: manifest written, chunks counted record by record and byte
      by byte, tables persisted. */
  ghost function NewDisks(cfg: Config, d: Disk, c: bytes, index: map<Id, Record>, refs: Counts): iset<Disk> {
    var listed := d.(raws := d.raws[cfg.sc.objectId(c) := RawOf(cfg, c)]);
    var file := d.journal + Image(Changes(INC, cfg.sc.Ids(c)), cfg.crc);
    iset{listed} + Torn(listed, file) + PersistDisks(listed.(journal := file), index, refs)
  }

  /** The disk during a Put of c whose object is indexed or not: chunks written, which makes them blobs, then one
      more copy recorded or a first one entered. */
  ghost function PutDisks(cfg: Config, d: Disk, c: bytes, blobs: map<Id, bytes>, indexed: bool, ok: bool,
                          index: map<Id, Record>, refs: Counts): iset<Disk> {
    var written := d.(blobs := blobs);
    ChunkDisks(cfg.sc, d, c, |cfg.sc.Pieces(c)|)
    + if indexed then PersistDisks(written, index, refs)
      else if ok then NewDisks(cfg, written, c, index, refs) else iset{}
  }

  /** The disks of a Put of new content, one by one: with any first part of its chunks written; then with its
      manifest and any number of bytes of its records; then with the index saved, and the counts, and the
      journal emptied. */
  lemma StatesOfPut(cfg: Config, d: Disk, c: bytes, blobs: map<Id, bytes>, index: map<Id, Record>, refs: Counts,
                    n: nat, cut: nat)
    requires n <= |cfg.sc.Pieces(c)|
    requires |d.journal| <= cut <= |d.journal| + REC * |cfg.sc.Ids(c)|
    ensures var all := PutDisks(cfg, d, c, blobs, false, true, index, refs);
      var listed := d.(blobs := blobs, raws := d.raws[cfg.sc.objectId(c) := RawOf(cfg, c)]);
      var file := d.journal + Image(Changes(INC, cfg.sc.Ids(c)), cfg.crc);
      && d.(blobs := Chunked(cfg.sc, d.blobs, c, n)) in all
      && listed.(journal := file[..cut]) in all
      && listed.(journal := file, index := index) in all
      && listed.(journal := file, index := index, refs := refs) in all
      && listed.(journal := [], index := index, refs := refs) in all
  {
    hide Chunked, RawOf, Image, Scheme.Ids, Scheme.Pieces, Changes;
    ChangesLong(INC, cfg.sc.Ids(c));
    var listed := d.(blobs := blobs, raws := d.raws[cfg.sc.objectId(c) := RawOf(cfg, c)]);
    var file := d.journal + Image(Changes(INC, cfg.sc.Ids(c)), cfg.crc);
    assert listed.(journal := file[..cut]) in Torn(listed, file);
  }

  /** and those of a Delete of a last copy. */
  lemma StatesOfDelete(cfg: Config, d: Disk, c: bytes, index: map<Id, Record>, refs: Counts, cut: nat)
    requires |d.journal| <= cut <= |d.journal| + REC * |cfg.sc.Ids(c)|
    ensures var all := LastDisks(cfg, d, c, index, refs);
      var file := d.journal + Image(Changes(DEC, cfg.sc.Ids(c)), cfg.crc);
      var unlisted := d.(raws := d.raws - {cfg.sc.objectId(c)}, journal := file);
      && d.(journal := file[..cut]) in all && unlisted in all
      && unlisted.(index := index) in all
      && unlisted.(index := index, refs := refs) in all
      && unlisted.(index := index, refs := refs, journal := []) in all
  {
    hide Image, Scheme.Ids, Changes;
    ChangesLong(DEC, cfg.sc.Ids(c));
    var file := d.journal + Image(Changes(DEC, cfg.sc.Ids(c)), cfg.crc);
    assert d.(journal := file[..cut]) in Torn(d, file);
  }

  /** and those of a GC: any part of what is dead may be gone. */
  lemma StatesOfGc(d: Disk, dead: set<Id>, gone: set<Id>)
    requires gone <= dead
    ensures d.(blobs := d.blobs - gone) in SweepDisks(d, dead)
  {
  }

  /** Everything in past is safe for before or for after, but for the window of persist and for what was
      appended behind a half-written record. */
  ghost predicate Leaves(cfg: Config, known: iset<bytes>, before: Held, after: Held, past: iset<Disk>, window: Disk,
                         rs: seq<Rec>, torn: bytes, op: byte, ids: seq<Id>)
  {
    forall d :: d in past ==>
      || Safe(cfg, known, before, d) || Safe(cfg, known, after, d) || d == window
      || (ids != [] && Spoiled(d, rs, torn, Rec(op, ids[0], 1), cfg.crc))
  }

  lemma LeavesBoth(cfg: Config, known: iset<bytes>, before: Held, after: Held, a: iset<Disk>, b: iset<Disk>,
                   window: Disk, rs: seq<Rec>, torn: bytes, op: byte, ids: seq<Id>)
    requires Leaves(cfg, known, before, after, a, window, rs, torn, op, ids)
    requires Leaves(cfg, known, before, after, b, window, rs, torn, op, ids)
    ensures Leaves(cfg, known, before, after, a + b, window, rs, torn, op, ids)
  {
    hide Safe, Spoiled;
  }

  lemma LeavesOne(cfg: Config, known: iset<bytes>, before: Held, after: Held, d: Disk, window: Disk,
                  rs: seq<Rec>, torn: bytes, op: byte, ids: seq<Id>)
    requires || Safe(cfg, known, before, d) || Safe(cfg, known, after, d)
             || (ids != [] && Spoiled(d, rs, torn, Rec(op, ids[0], 1), cfg.crc))
    ensures Leaves(cfg, known, before, after, iset{d}, window, rs, torn, op, ids)
  {
    hide Safe, Spoiled;
  }

  /** Any byte of the records of a Put may be the last one written. */
  lemma TornPut(cfg: Config, known: iset<bytes>, h: Held, k: Kept, d: Disk, rs: seq<Rec>, torn: bytes,
                ids: seq<Id>, cut: nat)
    requires Covers(cfg, known, h, k) && NoZeros(d.refs) && Grows(d.refs, rs, torn)
        && ApplyAll(d.refs, rs) == Ok(k.counts)
    requires d == Disk(k.blobs, k.raws, k.objects, d.refs, Image(rs, cfg.crc) + torn)
    requires forall id :: Count(d.refs, id) + |rs| + |ids| < TWO64 && Count(k.counts, id) + |ids| < TWO64
    requires |d.journal| <= cut <= |d.journal| + REC * |ids|
    ensures var e := d.(journal := (d.journal + Image(Changes(INC, ids), cfg.crc))[..cut]);
      Safe(cfg, known, h, e) || (ids != [] && Spoiled(e, rs, torn, Rec(INC, ids[0], 1), cfg.crc))
  {
    hide Covers, MoreCounted, Image, ApplyAll, Replay, NoZeros, Grows, Mixed, Safe, Changes;
    TornFits(d.refs, rs, torn);
    if torn == [] {
      assert d.journal == Image(rs, cfg.crc);
      WholePut(cfg, known, h, k, d, rs, ids, cut);
    } else {
      var tail := CutBehind(rs, torn, INC, ids, cut, cfg.crc);
      if cut < REC * (|rs| + 1) {
        LongerTail(d.refs, rs, torn, tail);
        AsMany(k.counts);
        SafeWith(cfg, known, h, k, d.refs, rs, tail);
      }
    }
  }

  /** The same when every record before was whole. */
  lemma WholePut(cfg: Config, known: iset<bytes>, h: Held, k: Kept, d: Disk, rs: seq<Rec>, ids: seq<Id>, cut: nat)
    requires Covers(cfg, known, h, k) && NoZeros(d.refs) && Grows(d.refs, rs, [])
        && ApplyAll(d.refs, rs) == Ok(k.counts)
    requires d == Disk(k.blobs, k.raws, k.objects, d.refs, Image(rs, cfg.crc))
    requires forall id :: Count(d.refs, id) + |rs| + |ids| < TWO64 && Count(k.counts, id) + |ids| < TWO64
    requires |d.journal| <= cut <= |d.journal| + REC * |ids|
    ensures Safe(cfg, known, h, d.(journal := (d.journal + Image(Changes(INC, ids), cfg.crc))[..cut]))
  {
    hide Covers, MoreCounted, Image, ApplyAll, Replay, NoZeros, Grows, Mixed, Spoiled;
    var all := rs + Changes(INC, ids);
    ImageAppend(rs, Changes(INC, ids), cfg.crc);
    GrowsWith(d.refs, rs, [], INC, ids);
    TornIncrements(d.refs, rs, k.counts, ids, cut, cfg.crc);
    CutGrows(d.refs, all, cut, cfg.crc);
    CoveredMore(cfg, known, h, k, Replay(d.refs, Image(all, cfg.crc)[..cut], cfg.crc).counts);
  }

  lemma TornFits(base: Counts, rs: seq<Rec>, torn: bytes)
    requires Grows(base, rs, torn)
    ensures |torn| < REC
  {
  }

  lemma LongerTail(base: Counts, rs: seq<Rec>, torn: bytes, tail: bytes)
    requires Grows(base, rs, torn) && |tail| < REC
    ensures Grows(base, rs, tail)
  {
  }

  /** The states of persist when the journal has grown by a batch since: safe but for the window, or spoiled. */
  lemma PersistBehind(cfg: Config, known: iset<bytes>, h: Held, k: Kept, d: Disk, rs: seq<Rec>, torn: bytes, op: byte,
                      ids: seq<Id>)
    requires Covers(cfg, known, h, k) && NoZeros(d.refs) && NoZeros(k.counts) && |torn| < REC
    requires d.blobs == k.blobs && d.raws == k.raws
    requires d.journal == Image(rs, cfg.crc) + torn + Image(Changes(op, ids), cfg.crc)
    requires Grows(d.refs, rs + Changes(op, ids), []) && Grows(k.counts, rs + Changes(op, ids), [])
    requires ApplyAll(d.refs, rs + Changes(op, ids)) == Ok(k.counts)
    ensures var saved := d.(index := k.objects);
      && (Safe(cfg, known, h, saved) || (ids != [] && Spoiled(saved, rs, torn, Rec(op, ids[0], 1), cfg.crc)))
      && Safe(cfg, known, h, saved.(refs := k.counts, journal := []))
      && (torn == [] || ids == [] ==>
            && (Survives(cfg, known, h, saved.(refs := k.counts))
                <==> Again(cfg.sc, h.contents, k.counts, rs + Changes(op, ids)))
            && (Safe(cfg, known, h, saved.(refs := k.counts)) <==> Survives(cfg, known, h, saved.(refs := k.counts))))
      && (torn != [] && ids != [] ==> Spoiled(saved.(refs := k.counts), rs, torn, Rec(op, ids[0], 1), cfg.crc))
  {
    hide Covers, Image, ApplyAll, NoZeros, Grows, Safe, Survives, Again, Mixed;
    var all := rs + Changes(op, ids);
    if torn == [] || ids == [] {
      if torn == [] {
        ImageAppend(rs, Changes(op, ids), cfg.crc);
      } else {
        ImageOfNothing(op, cfg.crc);
        assert all == rs && Changes(op, ids) == Changes(op, []);
      }
      assert d.journal == Image(all, cfg.crc) + torn;
      LongerTail(d.refs, all, [], torn);
      LongerTail(k.counts, all, [], torn);
      PersistStates(cfg, known, h, k, d, all, torn);
    } else {
      var tail := CutBehind(rs, torn, op, ids, |d.journal|, cfg.crc);
      assert d.journal[..|d.journal|] == d.journal;
      CleanSafe(cfg, known, h, k);
    }
  }

  lemma PersistLeaves(cfg: Config, known: iset<bytes>, before: Held, h: Held, after: Held, k: Kept, d: Disk,
                      rs: seq<Rec>, torn: bytes, op: byte, ids: seq<Id>)
    requires Covers(cfg, known, h, k) && NoZeros(d.refs) && NoZeros(k.counts) && |torn| < REC
    requires d.blobs == k.blobs && d.raws == k.raws
    requires d.journal == Image(rs, cfg.crc) + torn + Image(Changes(op, ids), cfg.crc)
    requires Grows(d.refs, rs + Changes(op, ids), []) && Grows(k.counts, rs + Changes(op, ids), [])
    requires ApplyAll(d.refs, rs + Changes(op, ids)) == Ok(k.counts)
    requires after == h || exists c :: c in known && c !in h.contents && after == h.(doomed := h.doomed + {c})
    ensures Leaves(cfg, known, before, after, PersistDisks(d, k.objects, k.counts),
                   d.(index := k.objects, refs := k.counts), rs, torn, op, ids)
  {
    hide Covers, Image, ApplyAll, NoZeros, Grows, Safe, Survives, Again, Spoiled;
    PersistBehind(cfg, known, h, k, d, rs, torn, op, ids);
    var saved := d.(index := k.objects);
    var clean := saved.(refs := k.counts, journal := []);
    if after != h {
      var c :| c in known && c !in h.contents && after == h.(doomed := h.doomed + {c});
      MoreDoomed(cfg, known, h, c, saved);
      MoreDoomed(cfg, known, h, c, clean);
    }
  }

  /** What a batch of changes leads to, in the tables and in the journal, given the room. */
  lemma BatchReady(base: Counts, rs: seq<Rec>, torn: bytes, counts: Counts, counts': Counts, op: byte, ids: seq<Id>)
    requires NoZeros(base) && NoZeros(counts') && Grows(base, rs, torn) && ApplyAll(base, rs) == Ok(counts)
    requires forall id :: Count(counts, id) + 2 * |rs| + 2 * |ids| < TWO64
    requires (op == INC && Plus(counts', counts, ids)) || (op == DEC && Minus(counts', counts, ids))
    ensures |torn| < REC && ApplyAll(base, rs + Changes(op, ids)) == Ok(counts')
    ensures Grows(base, rs + Changes(op, ids), []) && Grows(counts', rs + Changes(op, ids), [])
    ensures forall id :: Count(base, id) + |rs| + |ids| < TWO64 && Count(counts, id) + |ids| < TWO64
  {
    hide ApplyAll, NoZeros, Grows, Plus, Minus;
    RoomBelow(base, rs, torn, counts, |ids|);
    if op == INC {
      AppliedPlus(base, rs, counts, ids, counts');
    } else {
      AppliedMinus(base, rs, counts, ids, counts');
    }
    RoomPlus(counts, counts', ids, |rs| + |ids|);
    GrowsWith(base, rs, torn, op, ids);
    Regrown(base, counts', rs + Changes(op, ids));
    TornFits(base, rs, torn);
  }

  lemma Regrown(base: Counts, counts: Counts, rs: seq<Rec>)
    requires Grows(base, rs, []) && forall id :: Count(counts, id) + |rs| < TWO64
    ensures Grows(counts, rs, [])
  {
  }

  /** A Put of new content: every state on its way, and the tables it ends with. */
  lemma NewStates(cfg: Config, known: iset<bytes>, h: Held, k: Kept, d: Disk, c: bytes, rs: seq<Rec>, torn: bytes,
                  index: map<Id, Record>, counts: Counts, window: Disk)
    requires cfg.sc.Sound(known) && Covers(cfg, known, h, k)
    requires d == Disk(k.blobs, k.raws, k.objects, d.refs, Image(rs, cfg.crc) + torn)
    requires NoZeros(d.refs) && NoZeros(counts) && Grows(d.refs, rs, torn) && ApplyAll(d.refs, rs) == Ok(k.counts)
    requires c in known && c !in h.contents && |cfg.sc.Pieces(c)| <= MAX_CHUNKS && ChunksPresent(cfg.sc, k.blobs, c)
    requires forall id :: Count(k.counts, id) + 2 * |rs| + 2 * |cfg.sc.Ids(c)| < TWO64
    requires Plus(counts, k.counts, cfg.sc.Ids(c)) && index == k.objects[cfg.sc.objectId(c) := RecordOf(cfg.sc, c, 1)]
    requires window == d.(raws := k.raws[cfg.sc.objectId(c) := RawOf(cfg, c)], index := index, refs := counts,
                          journal := d.journal + Image(Changes(INC, cfg.sc.Ids(c)), cfg.crc))
    ensures Covers(cfg, known, WithFirst(h, c), Kept(k.blobs, counts, index, window.raws))
    ensures Leaves(cfg, known, h, WithFirst(h, c), NewDisks(cfg, d, c, index, counts), window, rs, torn, INC,
                   cfg.sc.Ids(c))
    ensures torn == [] || cfg.sc.Ids(c) == [] ==>
              && (Survives(cfg, known, WithFirst(h, c), window)
                  <==> Again(cfg.sc, (h.contents + multiset{c}), counts, rs + Changes(INC, cfg.sc.Ids(c))))
              && (Safe(cfg, known, WithFirst(h, c), window) <==> Survives(cfg, known, WithFirst(h, c), window))
    ensures torn != [] && cfg.sc.Ids(c) != [] ==> Spoiled(window, rs, torn, Rec(INC, cfg.sc.Ids(c)[0], 1), cfg.crc)
  {
    hide Covers, Image, ApplyAll, NoZeros, Grows, Safe, Survives, Again, Spoiled, Plus, RawOf, RecordOf, Scheme.Sound,
      Scheme.Ids, MoreCounted, Leaves, Torn, PersistDisks;
    var ids, h' := cfg.sc.Ids(c), WithFirst(h, c);
    var k1, listed := k.(raws := window.raws), d.(raws := window.raws);
    BatchReady(d.refs, rs, torn, k.counts, counts, INC, ids);
    ManifestAhead(cfg, known, h, k, c);
    AsMany(k.counts);
    SafeWith(cfg, known, h, k1, d.refs, rs, torn);
    LeavesOne(cfg, known, h, h', listed, window, rs, torn, INC, ids);
    TornPutLeaves(cfg, known, h, h', k1, listed, rs, torn, ids, window);
    LeavesBoth(cfg, known, h, h', iset{listed}, Torn(listed, window.journal), window, rs, torn, INC, ids);
    FirstCovers(cfg, known, h, k1, c, counts);
    var k2, counted := Kept(k.blobs, counts, index, window.raws), listed.(journal := window.journal);
    PersistBehind(cfg, known, h', k2, counted, rs, torn, INC, ids);
    PersistLeaves(cfg, known, h, h', h', k2, counted, rs, torn, INC, ids);
    LeavesBoth(cfg, known, h, h', iset{listed} + Torn(listed, window.journal),
               PersistDisks(counted, index, counts), window, rs, torn, INC, ids);
  }

  lemma TornPutLeaves(cfg: Config, known: iset<bytes>, h: Held, h': Held, k: Kept, d: Disk, rs: seq<Rec>, torn: bytes,
                      ids: seq<Id>, window: Disk)
    requires Covers(cfg, known, h, k) && NoZeros(d.refs) && Grows(d.refs, rs, torn)
        && ApplyAll(d.refs, rs) == Ok(k.counts)
    requires d == Disk(k.blobs, k.raws, k.objects, d.refs, Image(rs, cfg.crc) + torn)
    requires forall id :: Count(d.refs, id) + |rs| + |ids| < TWO64 && Count(k.counts, id) + |ids| < TWO64
    ensures Leaves(cfg, known, h, h', Torn(d, d.journal + Image(Changes(INC, ids), cfg.crc)), window, rs, torn, INC,
                   ids)
  {
    hide Covers, Image, ApplyAll, NoZeros, Grows, Safe, Spoiled;
    var file := d.journal + Image(Changes(INC, ids), cfg.crc);
    forall cut: nat | |d.journal| <= cut <= |file|
      ensures var e := d.(journal := file[..cut]);
        Safe(cfg, known, h, e) || (ids != [] && Spoiled(e, rs, torn, Rec(INC, ids[0], 1), cfg.crc))
    {
      TornPut(cfg, known, h, k, d, rs, torn, ids, cut);
    }
  }

  // ---- The states of a Delete ----

  /** The disk while the last copy of c is removed: chunks counted down record by record and byte by byte,
      manifest removed, tables persisted. */
  ghost function LastDisks(cfg: Config, d: Disk, c: bytes, index: map<Id, Record>, refs: Counts): iset<Disk> {
    var file := d.journal + Image(Changes(DEC, cfg.sc.Ids(c)), cfg.crc);
    var unlisted := d.(raws := d.raws - {cfg.sc.objectId(c)}, journal := file);
    Torn(d, file) + iset{unlisted} + PersistDisks(unlisted, index, refs)
  }

  lemma MoreDoomed(cfg: Config, known: iset<bytes>, h: Held, c: bytes, d: Disk)
    requires c in known && c !in h.contents
    ensures Safe(cfg, known, h, d) ==> Safe(cfg, known, h.(doomed := h.doomed + {c}), d)
    ensures Survives(cfg, known, h, d) ==> Survives(cfg, known, h.(doomed := h.doomed + {c}), d)
  {
    hide HoldsAll, Genuine, Enough, NoZeros, Replay, Growing;
  }

  /** Without its manifest a doomed content is no less doomed. */
  lemma UnfiledCovers(cfg: Config, known: iset<bytes>, h: Held, k: Kept, c: bytes)
    requires cfg.sc.Sound(known) && Covers(cfg, known, h, k) && c in h.doomed
    ensures Covers(cfg, known, h, k.(raws := k.raws - {cfg.sc.objectId(c)}))
  {
    hide Genuine, RawOf, RecordOf, ChunksPresent, Enough, HoldsAll, Scheme.Sound, Listed;
    var k' := k.(raws := k.raws - {cfg.sc.objectId(c)});
    OthersStay(cfg, known, h.contents, k, c, k');
    assert h.contents - multiset{c} == h.contents;
    ListedOne(cfg, known, h, k.objects, k.raws, c);
    StillListed(cfg, known, h, k.objects, k.raws, h, k'.objects, k'.raws, c);
  }

  lemma StillFewer(now: Counts, was: Counts, ids: seq<Id>)
    requires Minus(now, was, ids)
    ensures MoreCounted(now, was)
  {
  }

  /** References ids of a doomed content c are taken back, and h is covered when all of them are. Then any byte
      of their records may be the last one written; the manifest may be gone by then. */
  lemma TornTaken(cfg: Config, known: iset<bytes>, h: Held, c: bytes, k: Kept, d: Disk, rs: seq<Rec>, torn: bytes,
                  ids: seq<Id>, now: Counts, raws: map<Id, bytes>, cut: nat)
    requires cfg.sc.Sound(known) && c in h.doomed
    requires Covers(cfg, known, h, k.(counts := now)) && Minus(now, k.counts, ids)
    requires NoZeros(d.refs) && Grows(d.refs, rs, torn) && ApplyAll(d.refs, rs) == Ok(k.counts)
    requires d == Disk(k.blobs, k.raws, k.objects, d.refs, Image(rs, cfg.crc) + torn)
    requires forall id :: Count(d.refs, id) + |rs| + |ids| < TWO64
    requires raws == k.raws || raws == k.raws - {cfg.sc.objectId(c)}
    requires |d.journal| <= cut <= |d.journal| + REC * |ids|
    ensures var e := d.(raws := raws, journal := (d.journal + Image(Changes(DEC, ids), cfg.crc))[..cut]);
      Safe(cfg, known, h, e) || (ids != [] && Spoiled(e, rs, torn, Rec(DEC, ids[0], 1), cfg.crc))
  {
    hide Covers, MoreCounted, Image, ApplyAll, Replay, NoZeros, Grows, Mixed, Scheme.Sound, Safe, Minus, Changes;
    TornFits(d.refs, rs, torn);
    UnfiledCovers(cfg, known, h, k.(counts := now), c);
    var k' := Kept(k.blobs, now, k.objects, raws);
    if torn == [] {
      assert d.journal == Image(rs, cfg.crc);
      CutTaken(cfg, known, h, k', d.refs, rs, k.counts, ids, cut);
    } else {
      var tail := CutBehind(rs, torn, DEC, ids, cut, cfg.crc);
      if cut < REC * (|rs| + 1) {
        LongerTail(d.refs, rs, torn, tail);
        StillFewer(now, k.counts, ids);
        SafeWith(cfg, known, h, k', d.refs, rs, tail);
      }
    }
  }

  lemma CutTaken(cfg: Config, known: iset<bytes>, h: Held, k: Kept, base: Counts, rs: seq<Rec>, counts: Counts,
                 ids: seq<Id>, cut: nat)
    requires Covers(cfg, known, h, k) && Minus(k.counts, counts, ids)
    requires NoZeros(base) && Grows(base, rs, []) && ApplyAll(base, rs) == Ok(counts)
    requires forall id :: Count(base, id) + |rs| + |ids| < TWO64
    requires REC * |rs| <= cut <= REC * (|rs| + |ids|)
    ensures Safe(cfg, known, h, Disk(k.blobs, k.raws, k.objects, base,
                                     (Image(rs, cfg.crc) + Image(Changes(DEC, ids), cfg.crc))[..cut]))
  {
    hide Covers, Image, ApplyAll, Replay, NoZeros, Grows;
    var all := rs + Changes(DEC, ids);
    MinusFits(k.counts, counts, ids);
    ImageAppend(rs, Changes(DEC, ids), cfg.crc);
    GrowsWith(base, rs, [], DEC, ids);
    TornDecrements(base, rs, counts, ids, cut, cfg.crc);
    CutGrows(base, all, cut, cfg.crc);
    CoveredMore(cfg, known, h, k, Replay(base, Image(all, cfg.crc)[..cut], cfg.crc).counts);
  }

  /** All of these states at once. */
  lemma TakenLeaves(cfg: Config, known: iset<bytes>, h: Held, c: bytes, k: Kept, d: Disk, rs: seq<Rec>, torn: bytes,
                    ids: seq<Id>, now: Counts, window: Disk)
    requires cfg.sc.Sound(known) && c in h.doomed
    requires Covers(cfg, known, h, k.(counts := now)) && Minus(now, k.counts, ids)
    requires NoZeros(d.refs) && Grows(d.refs, rs, torn) && ApplyAll(d.refs, rs) == Ok(k.counts)
    requires d == Disk(k.blobs, k.raws, k.objects, d.refs, Image(rs, cfg.crc) + torn)
    requires forall id :: Count(d.refs, id) + |rs| + |ids| < TWO64
    ensures Leaves(cfg, known, h, h, Torn(d, d.journal + Image(Changes(DEC, ids), cfg.crc)), window, rs, torn, DEC, ids)
  {
    hide Covers, Image, ApplyAll, NoZeros, Grows, Safe, Spoiled, Scheme.Sound, Minus, Changes;
    var file := d.journal + Image(Changes(DEC, ids), cfg.crc);
    ChangesLong(DEC, ids);
    forall cut: nat | |d.journal| <= cut <= |file|
      ensures var e := d.(journal := file[..cut]);
        Safe(cfg, known, h, e) || (ids != [] && Spoiled(e, rs, torn, Rec(DEC, ids[0], 1), cfg.crc))
    {
      TornTaken(cfg, known, h, c, k, d, rs, torn, ids, now, k.raws, cut);
    }
  }

  lemma ChangesLong(op: byte, ids: seq<Id>)
    ensures |Changes(op, ids)| == |ids|
  {
  }

  /** Any byte of the records of a Delete may be the last one written; the manifest may be gone by then. */
  lemma TornDelete(cfg: Config, known: iset<bytes>, h: Held, c: bytes, k: Kept, d: Disk, rs: seq<Rec>, torn: bytes,
                   raws: map<Id, bytes>, cut: nat)
    requires cfg.sc.Sound(known) && Covers(cfg, known, h, k) && h.contents[c] == 1
    requires NoZeros(d.refs) && Grows(d.refs, rs, torn) && ApplyAll(d.refs, rs) == Ok(k.counts)
    requires d == Disk(k.blobs, k.raws, k.objects, d.refs, Image(rs, cfg.crc) + torn)
    requires forall id :: Count(d.refs, id) + |rs| + |cfg.sc.Ids(c)| < TWO64
    requires raws == k.raws || raws == k.raws - {cfg.sc.objectId(c)}
    requires |d.journal| <= cut <= |d.journal| + REC * |cfg.sc.Ids(c)|
    ensures var ids := cfg.sc.Ids(c);
      var e := d.(raws := raws, journal := (d.journal + Image(Changes(DEC, ids), cfg.crc))[..cut]);
      Safe(cfg, known, Dooming(h, c), e) || (ids != [] && Spoiled(e, rs, torn, Rec(DEC, ids[0], 1), cfg.crc))
  {
    hide Covers, Image, ApplyAll, NoZeros, Grows, Scheme.Sound, Scheme.Ids, Safe, Spoiled, Changes, HoldsOne;
    var ids := cfg.sc.Ids(c);
    OneCovered(cfg, known, h, k, c);
    var now := TakenFrom(k.counts, ids);
    DoomedCovers(cfg, known, h, k, c, k.(counts := now));
    TornTaken(cfg, known, Dooming(h, c), c, k, d, rs, torn, ids, now, raws, cut);
  }

  lemma TakenFrom(counts: Counts, ids: seq<Id>) returns (now: Counts)
    requires forall id :: multiset(ids)[id] <= Count(counts, id)
    ensures Minus(now, counts, ids)
  {
    ApplyDecrements(counts, ids);
    now := ApplyAll(counts, Changes(DEC, ids)).counts;
  }

  lemma NotDoomed(cfg: Config, known: iset<bytes>, h: Held, k: Kept, c: bytes)
    requires Covers(cfg, known, h, k) && c in h.contents
    ensures c in known && c !in h.doomed
  {
    hide Listed, Genuine, Enough;
    OneHeld(cfg, known, h.contents, k, c);
  }

  /** All references of a doomed content c are taken back, and h is covered when they are: every state on the
      way, and the tables it ends with. */
  lemma TakenStates(cfg: Config, known: iset<bytes>, h: Held, c: bytes, k: Kept, d: Disk, rs: seq<Rec>, torn: bytes,
                    counts: Counts, window: Disk)
    requires cfg.sc.Sound(known) && c in h.doomed
    requires Covers(cfg, known, h, k.(counts := counts)) && Minus(counts, k.counts, cfg.sc.Ids(c))
    requires d == Disk(k.blobs, k.raws, k.objects, d.refs, Image(rs, cfg.crc) + torn)
    requires NoZeros(d.refs) && NoZeros(counts) && Grows(d.refs, rs, torn) && ApplyAll(d.refs, rs) == Ok(k.counts)
    requires forall id :: Count(k.counts, id) + 2 * |rs| + 2 * |cfg.sc.Ids(c)| < TWO64
    requires window == Disk(k.blobs, k.raws - {cfg.sc.objectId(c)}, k.objects - {cfg.sc.objectId(c)}, counts,
                            d.journal + Image(Changes(DEC, cfg.sc.Ids(c)), cfg.crc))
    ensures Covers(cfg, known, h.(doomed := h.doomed - {c}), Kept(k.blobs, counts, window.index, window.raws))
    ensures Leaves(cfg, known, h, h, LastDisks(cfg, d, c, window.index, counts), window, rs, torn, DEC, cfg.sc.Ids(c))
    ensures torn == [] || cfg.sc.Ids(c) == [] ==>
              (Survives(cfg, known, h.(doomed := h.doomed - {c}), window)
               <==> Again(cfg.sc, h.contents, counts, rs + Changes(DEC, cfg.sc.Ids(c))))
    ensures torn != [] && cfg.sc.Ids(c) != [] ==> Spoiled(window, rs, torn, Rec(DEC, cfg.sc.Ids(c)[0], 1), cfg.crc)
  {
    hide Covers, Image, ApplyAll, NoZeros, Grows, Safe, Survives, Again, Spoiled, Minus, Scheme.Sound, Scheme.Ids,
      Leaves, Torn, PersistDisks, Changes;
    var ids, h' := cfg.sc.Ids(c), h.(doomed := h.doomed - {c});
    var unlisted := d.(raws := window.raws, journal := window.journal);
    BatchReady(d.refs, rs, torn, k.counts, counts, DEC, ids);
    UnlistedLeaves(cfg, known, h, c, k, d, rs, torn, counts, window);
    var k' := Kept(k.blobs, counts, window.index, window.raws);
    UnfiledCovers(cfg, known, h, k.(counts := counts), c);
    GoneCovers(cfg, known, h, k'.(objects := k.objects), c);
    WasDoomed(cfg, known, h, k.(counts := counts), c);
    PersistBehind(cfg, known, h', k', unlisted, rs, torn, DEC, ids);
    assert h == h'.(doomed := h'.doomed + {c});
    PersistLeaves(cfg, known, h, h', h, k', unlisted, rs, torn, DEC, ids);
    LeavesBoth(cfg, known, h, h, Torn(d, window.journal) + iset{unlisted},
               PersistDisks(unlisted, window.index, counts), window, rs, torn, DEC, ids);
  }

  /** References of a content that a crashed Delete left half removed are taken back again, all of them: the
      others are still covered exactly if enough is counted, and then every state on the way is safe. */
  lemma Retaken(cfg: Config, known: iset<bytes>, h: Held, c: bytes, k: Kept, d: Disk, rs: seq<Rec>, torn: bytes,
                counts: Counts, window: Disk)
    requires cfg.sc.Sound(known) && c in h.doomed && Covers(cfg, known, h, k) && Safe(cfg, known, h, d)
    requires Minus(counts, k.counts, cfg.sc.Ids(c))
    requires d == Disk(k.blobs, k.raws, k.objects, d.refs, Image(rs, cfg.crc) + torn)
    requires NoZeros(d.refs) && NoZeros(counts) && Grows(d.refs, rs, torn) && ApplyAll(d.refs, rs) == Ok(k.counts)
    requires forall id :: Count(k.counts, id) + 2 * |rs| + 2 * |cfg.sc.Ids(c)| < TWO64
    requires window == Disk(k.blobs, k.raws - {cfg.sc.objectId(c)}, k.objects - {cfg.sc.objectId(c)}, counts,
                            d.journal + Image(Changes(DEC, cfg.sc.Ids(c)), cfg.crc))
    ensures Covers(cfg, known, h.(doomed := h.doomed - {c}), Kept(k.blobs, counts, window.index, window.raws))
       <==> Enough(cfg.sc, h.contents, counts)
    ensures Enough(cfg.sc, h.contents, counts) ==>
              Leaves(cfg, known, h, h, iset{d} + LastDisks(cfg, d, c, window.index, counts), window, rs, torn, DEC,
                     cfg.sc.Ids(c))
  {
    hide Covers, Image, ApplyAll, NoZeros, Grows, Safe, Survives, Again, Spoiled, Minus, Scheme.Sound, Scheme.Ids,
      Leaves, LastDisks, Changes, Enough;
    GenuineCovered(cfg, known, h, k);
    OtherCounts(cfg, known, h, k, k.blobs, counts);
    var h', k' := h.(doomed := h.doomed - {c}), Kept(k.blobs, counts, window.index, window.raws);
    if Enough(cfg.sc, h.contents, counts) {
      TakenStates(cfg, known, h, c, k, d, rs, torn, counts, window);
      TakenBack(cfg, known, h, h, cfg.sc.Ids(c), d, rs, torn, LastDisks(cfg, d, c, window.index, counts), window);
    } else if Covers(cfg, known, h', k') {
      GenuineCovered(cfg, known, h', k');
    }
  }

  /** and the same for the first n of them, after which it stopped: the journal holds their records now. */
  lemma RetakenPart(cfg: Config, known: iset<bytes>, h: Held, c: bytes, k: Kept, d: Disk, rs: seq<Rec>, torn: bytes,
                    ids: seq<Id>, n: nat, counts: Counts, window: Disk)
    requires cfg.sc.Sound(known) && c in h.doomed && Covers(cfg, known, h, k) && Safe(cfg, known, h, d)
    requires n <= |ids| && Minus(counts, k.counts, ids[..n])
    requires d == Disk(k.blobs, k.raws, k.objects, d.refs, Image(rs, cfg.crc) + torn)
    requires NoZeros(d.refs) && NoZeros(counts) && Grows(d.refs, rs, torn) && ApplyAll(d.refs, rs) == Ok(k.counts)
    requires forall id :: Count(k.counts, id) + 2 * |rs| + 2 * |ids| < TWO64
    ensures Covers(cfg, known, h, k.(counts := counts)) <==> Enough(cfg.sc, h.contents, counts)
    ensures Enough(cfg.sc, h.contents, counts) ==>
              Leaves(cfg, known, h, h, iset{d} + Torn(d, d.journal + Image(Changes(DEC, ids[..n]), cfg.crc)), window,
                     rs, torn, DEC, ids)
  {
    hide Covers, Image, ApplyAll, NoZeros, Grows, Safe, Survives, Again, Spoiled, Scheme.Sound, Leaves, Torn, Changes,
      Enough, Minus;
    var some := ids[..n];
    GenuineCovered(cfg, known, h, k);
    OtherCounts(cfg, known, h, k, k.blobs, counts);
    if Enough(cfg.sc, h.contents, counts) {
      BatchReady(d.refs, rs, torn, k.counts, counts, DEC, some);
      var states := Torn(d, d.journal + Image(Changes(DEC, some), cfg.crc));
      TakenLeaves(cfg, known, h, c, k, d, rs, torn, some, counts, window);
      LeavesLonger(cfg, known, h, states, window, rs, torn, ids, n);
      TakenBack(cfg, known, h, h, ids, d, rs, torn, states, window);
    }
  }

  lemma PartTracked(base: Counts, rs: seq<Rec>, torn: bytes, was: Counts, ids: seq<Id>, counts: Counts, crc: Crc)
    requires NoZeros(was) && NoZeros(base) && NoZeros(counts) && Minus(counts, was, ids)
    requires Grows(base, rs, torn) && ApplyAll(base, rs) == Ok(was)
    requires forall id :: Count(was, id) + 2 * |rs| + 2 * |ids| < TWO64
    ensures var all := rs + Changes(DEC, ids);
      && (torn == [] ==>
            && Grows(base, all, []) && ApplyAll(base, all) == Ok(counts)
            && Image(rs, crc) + torn + Image(Changes(DEC, ids), crc) == Image(all, crc) + [])
      && (ids == [] ==>
            counts == was && Image(rs, crc) + torn + Image(Changes(DEC, ids), crc) == Image(rs, crc) + torn)
  {
    hide Image, ApplyAll, NoZeros, Grows, Changes, Minus;
    BatchReady(base, rs, torn, was, counts, DEC, ids);
    ImageAppend(rs, Changes(DEC, ids), crc);
    if ids == [] {
      ImageOfNothing(DEC, crc);
      NothingMinus(counts, was);
    }
  }

  lemma NothingMinus(now: Counts, was: Counts)
    requires Minus(now, was, []) && NoZeros(now) && NoZeros(was)
    ensures now == was
  {
    SameCounts(now, was);
  }

  /** What is said of a part of a batch holds of the batch. */
  lemma LeavesLonger(cfg: Config, known: iset<bytes>, h: Held, past: iset<Disk>, window: Disk, rs: seq<Rec>,
                     torn: bytes, ids: seq<Id>, n: nat)
    requires n <= |ids| && Leaves(cfg, known, h, h, past, window, rs, torn, DEC, ids[..n])
    ensures Leaves(cfg, known, h, h, past, window, rs, torn, DEC, ids)
  {
    hide Safe, Spoiled;
  }

  lemma TakenBack(cfg: Config, known: iset<bytes>, before: Held, after: Held, ids: seq<Id>, d: Disk, rs: seq<Rec>,
                  torn: bytes, states: iset<Disk>, window: Disk)
    requires Safe(cfg, known, before, d)
    requires Leaves(cfg, known, before, after, states, window, rs, torn, DEC, ids)
    ensures Leaves(cfg, known, before, after, iset{d} + states, window, rs, torn, DEC, ids)
  {
    hide Safe, Leaves;
    LeavesOne(cfg, known, before, after, d, window, rs, torn, DEC, ids);
    LeavesBoth(cfg, known, before, after, iset{d}, states, window, rs, torn, DEC, ids);
  }

  /** The states up to the removal of the manifest. */
  lemma UnlistedLeaves(cfg: Config, known: iset<bytes>, h: Held, c: bytes, k: Kept, d: Disk, rs: seq<Rec>, torn: bytes,
                       counts: Counts, window: Disk)
    requires cfg.sc.Sound(known) && c in h.doomed
    requires Covers(cfg, known, h, k.(counts := counts)) && Minus(counts, k.counts, cfg.sc.Ids(c))
    requires d == Disk(k.blobs, k.raws, k.objects, d.refs, Image(rs, cfg.crc) + torn)
    requires NoZeros(d.refs) && Grows(d.refs, rs, torn) && ApplyAll(d.refs, rs) == Ok(k.counts)
    requires forall id :: Count(d.refs, id) + |rs| + |cfg.sc.Ids(c)| < TWO64
    requires window.raws == k.raws - {cfg.sc.objectId(c)}
    requires window.journal == d.journal + Image(Changes(DEC, cfg.sc.Ids(c)), cfg.crc)
    ensures Leaves(cfg, known, h, h, Torn(d, window.journal)
                                     + iset{d.(raws := window.raws, journal := window.journal)},
                   window, rs, torn, DEC, cfg.sc.Ids(c))
  {
    hide Covers, Image, ApplyAll, NoZeros, Grows, Safe, Spoiled, Minus, Scheme.Sound, Scheme.Ids, Leaves, Torn, Changes;
    var ids, unlisted := cfg.sc.Ids(c), d.(raws := window.raws, journal := window.journal);
    ChangesLong(DEC, ids);
    TakenLeaves(cfg, known, h, c, k, d, rs, torn, ids, counts, window);
    TornTaken(cfg, known, h, c, k, d, rs, torn, ids, counts, window.raws, |window.journal|);
    assert window.journal[..|window.journal|] == window.journal;
    LeavesOne(cfg, known, h, h, unlisted, window, rs, torn, DEC, ids);
    LeavesBoth(cfg, known, h, h, Torn(d, window.journal), iset{unlisted}, window, rs, torn, DEC, ids);
  }

  lemma WasDoomed(cfg: Config, known: iset<bytes>, h: Held, k: Kept, c: bytes)
    requires Covers(cfg, known, h, k) && c in h.doomed
    ensures c in known && c !in h.contents
  {
    hide Listed, Genuine, Enough, HoldsAll;
  }

  /** A Delete of a last copy: every state on its way, and the tables it ends with. */
  lemma LastStates(cfg: Config, known: iset<bytes>, h: Held, c: bytes, k: Kept, d: Disk, rs: seq<Rec>, torn: bytes,
                   counts: Counts, window: Disk)
    requires cfg.sc.Sound(known) && Covers(cfg, known, h, k) && h.contents[c] == 1
    requires d == Disk(k.blobs, k.raws, k.objects, d.refs, Image(rs, cfg.crc) + torn)
    requires NoZeros(d.refs) && NoZeros(counts) && Grows(d.refs, rs, torn) && ApplyAll(d.refs, rs) == Ok(k.counts)
    requires forall id :: Count(k.counts, id) + 2 * |rs| + 2 * |cfg.sc.Ids(c)| < TWO64
    requires Minus(counts, k.counts, cfg.sc.Ids(c))
    requires window == Disk(k.blobs, k.raws - {cfg.sc.objectId(c)}, k.objects - {cfg.sc.objectId(c)}, counts,
                            d.journal + Image(Changes(DEC, cfg.sc.Ids(c)), cfg.crc))
    ensures Covers(cfg, known, Without(h, c), Kept(k.blobs, counts, window.index, window.raws))
    ensures Leaves(cfg, known, h, Dooming(h, c), LastDisks(cfg, d, c, window.index, counts), window, rs, torn, DEC,
                   cfg.sc.Ids(c))
    ensures torn == [] || cfg.sc.Ids(c) == [] ==>
              (Survives(cfg, known, Without(h, c), window)
               <==> Again(cfg.sc, h.contents - multiset{c}, counts, rs + Changes(DEC, cfg.sc.Ids(c))))
    ensures torn != [] && cfg.sc.Ids(c) != [] ==> Spoiled(window, rs, torn, Rec(DEC, cfg.sc.Ids(c)[0], 1), cfg.crc)
  {
    hide Covers, Image, ApplyAll, NoZeros, Grows, Safe, Survives, Again, Spoiled, Scheme.Sound, Scheme.Ids, LastDisks,
      Changes;
    DoomedCovers(cfg, known, h, k, c, k.(counts := counts));
    NotDoomed(cfg, known, h, k, c);
    TakenStates(cfg, known, Dooming(h, c), c, k, d, rs, torn, counts, window);
    assert h.doomed + {c} - {c} == h.doomed;
  }

  // ---- Where it goes wrong ----

  lemma ExactlyCounted(sc: Scheme, contents: multiset<bytes>, c: bytes, counts: Counts, now: Counts)
    requires CountsMatch(sc, contents, counts) && contents[c] == 1 && Minus(now, counts, sc.Ids(c))
    ensures forall id :: Count(now, id) == Total(Demand(sc, contents - multiset{c}))[id]
  {
    DemandOfLess(sc, contents, c);
  }

  /** Only the empty content has no chunks. */
  lemma EmptyAlone(sc: Scheme, c: bytes)
    ensures sc.Ids(c) == [] <==> c == []
  {
    SplitConcat(sc.pol, sc.table, c);
    assert sc.Pieces(c) == [] ==> c == Concat([]) == [];
  }

  /** From a cleanly persisted store with exact counts, the window of a Delete goes well for the empty content
      alone: for any other, a crash in it loses references or does not reopen. */
  lemma CleanWindow(sc: Scheme, contents: multiset<bytes>, c: bytes, counts: Counts, now: Counts)
    requires CountsMatch(sc, contents, counts) && contents[c] == 1 && Minus(now, counts, sc.Ids(c))
    ensures Again(sc, contents - multiset{c}, now, Changes(DEC, sc.Ids(c))) <==> c == []
  {
    hide Total, Demand, CountsMatch, Scheme.Ids, Minus, Added, Taken;
    ExactlyCounted(sc, contents, c, counts, now);
    EmptyAlone(sc, c);
    SumsOfChanges(sc.Ids(c));
    if c != [] {
      assert sc.Ids(c)[0] in multiset(sc.Ids(c));
    } else {
      NothingToPay(now);
    }
  }

  /** A Delete crashes once j of its records are in the journal; the store is reopened and collected. The
      window of that persist goes well exactly if every chunk counted down so far was still to be counted
      down as often again. In particular never after all of a content with chunks was counted down. */
  lemma RecoveryWindow(sc: Scheme, others: multiset<bytes>, ids: seq<Id>, j: nat, counts: Counts)
    requires j <= |ids|
    requires forall id :: Count(counts, id) == Total(Demand(sc, others))[id] + multiset(ids[j..])[id]
    ensures Again(sc, others, counts, Changes(DEC, ids[..j])) <==> multiset(ids[..j]) <= multiset(ids[j..])
    ensures j == |ids| && ids != [] ==> !Again(sc, others, counts, Changes(DEC, ids[..j]))
  {
    hide Total, Demand, Added, Taken;
    SumsOfChanges(ids[..j]);
    if multiset(ids[..j]) <= multiset(ids[j..]) {
      PayablePrefixes(counts, ids[..j]);
    }
    if j == |ids| && ids != [] {
      assert ids[..j] == ids && ids[j..] == [] && ids[0] in multiset(ids);
    }
  }

  lemma PayablePrefixes(counts: Counts, ids: seq<Id>)
    requires forall id :: multiset(ids)[id] <= Count(counts, id)
    ensures Payable(counts, Changes(DEC, ids))
  {
    hide Added, Taken;
    forall i | 0 <= i <= |ids|
      ensures Paid(counts, Changes(DEC, ids)[..i])
    {
      assert Changes(DEC, ids)[..i] == Changes(DEC, ids[..i]);
      SumsOfChanges(ids[..i]);
      assert ids == ids[..i] + ids[i..];
    }
  }

  /** After such a crash the object may still be listed. A second Delete of it takes its references once more,
      as far as it gets: all of them exactly if others list what was already counted down. When it has taken n
      of them, the others are left enough exactly if what it took was still to be taken. */
  lemma RetriedDelete(sc: Scheme, others: multiset<bytes>, ids: seq<Id>, j: nat, counts: Counts, n: nat, now: Counts)
    requires j <= |ids| && n <= |ids| && Minus(now, counts, ids[..n])
    requires forall id :: Count(counts, id) == Total(Demand(sc, others))[id] + multiset(ids[j..])[id]
    ensures (forall id :: multiset(ids)[id] <= Count(counts, id)) <==> multiset(ids[..j]) <= Total(Demand(sc, others))
    ensures Enough(sc, others, now) <==> multiset(ids[..n]) <= multiset(ids[j..])
    ensures n == |ids| ==> (Enough(sc, others, now) <==> j == 0)
  {
    hide Total, Demand, Count;
    assert ids == ids[..j] + ids[j..];
    forall id
      ensures Total(Demand(sc, others))[id] <= Count(now, id) <==> multiset(ids[..n])[id] <= multiset(ids[j..])[id]
    {
      assert Count(now, id) == Count(counts, id) - multiset(ids[..n])[id];
    }
    if n == |ids| {
      AllInRest(ids, j);
    }
  }

  /** All of a list is in what follows its first j exactly if these are none. */
  lemma AllInRest(ids: seq<Id>, j: nat)
    requires j <= |ids|
    ensures multiset(ids[..|ids|]) <= multiset(ids[j..]) <==> j == 0
  {
    assert ids[..|ids|] == ids && ids == ids[..j] + ids[j..];
    if j > 0 {
      assert ids[0] in multiset(ids[..j]);
      assert multiset(ids)[ids[0]] > multiset(ids[j..])[ids[0]];
    } else {
      assert ids[0..] == ids;
    }
  }

  /** A second Put of such an object finds it listed and only raises its use count. Its chunks are counted
      exactly if no record of the Delete had been journalled. */
  lemma RetriedPut(sc: Scheme, others: multiset<bytes>, c: bytes, j: nat, counts: Counts)
    requires c !in others && j <= |sc.Ids(c)|
    requires forall id :: Count(counts, id) == Total(Demand(sc, others))[id] + multiset(sc.Ids(c)[j..])[id]
    ensures Enough(sc, others + multiset{c}, counts) <==> j == 0
  {
    hide Total, Demand, Scheme.Ids, Count;
    var ids := sc.Ids(c);
    DemandOfMore(sc, others, c);
    AllInRest(ids, j);
    assert ids[..|ids|] == ids;
    forall id
      ensures Total(Demand(sc, others + multiset{c}))[id] <= Count(counts, id)
         <==> multiset(ids)[id] <= multiset(ids[j..])[id]
    {
      assert Count(counts, id) == Total(Demand(sc, others))[id] + multiset(ids[j..])[id];
    }
  }

  /** Two Puts at once: while one persists, the other is counting the chunks of y. If only the first i of them
      are in the count snapshot the former saves, it empties the journal of all of them. When the latter then
      saves the index and crashes, y is held exactly if its counting was over when the snapshot was taken. */
  lemma RacingPersists(cfg: Config, known: iset<bytes>, h: Held, k: Kept, y: bytes, i: nat, snapshot: Counts)
    requires cfg.sc.Sound(known) && Covers(cfg, known, h, k) && CountsMatch(cfg.sc, h.contents, k.counts)
    requires y in known && y !in h.contents && |cfg.sc.Pieces(y)| <= MAX_CHUNKS && ChunksPresent(cfg.sc, k.blobs, y)
    requires var o := cfg.sc.objectId(y); o in k.raws && k.raws[o] == RawOf(cfg, y)
    requires i <= |cfg.sc.Ids(y)| && Plus(snapshot, k.counts, cfg.sc.Ids(y)[..i]) && NoZeros(snapshot)
    ensures var emptied := Disk(k.blobs, k.raws, k.objects, snapshot, []);
      && Safe(cfg, known, h, emptied)
      && (Survives(cfg, known, WithFirst(h, y),
                   emptied.(index := k.objects[cfg.sc.objectId(y) := RecordOf(cfg.sc, y, 1)]))
          <==> i == |cfg.sc.Ids(y)|)
  {
    hide Covers, NoZeros, Plus, RawOf, RecordOf, Scheme.Sound, Scheme.Ids, CountsMatch, Enough, MoreCounted, Safe;
    var k' := k.(counts := snapshot);
    PlusMore(snapshot, k.counts, cfg.sc.Ids(y)[..i]);
    CoveredMore(cfg, known, h, k, snapshot);
    CleanSafe(cfg, known, h, k');
    FullyCounted(cfg.sc, h.contents, y, i, k.counts, snapshot);
    EnoughAsListed(cfg, known, h, k, y, snapshot);
    assert Replay(snapshot, [], cfg.crc) == Ok(snapshot);
  }

  lemma PlusMore(now: Counts, was: Counts, ids: seq<Id>)
    requires Plus(now, was, ids)
    ensures MoreCounted(was, now)
  {
  }

  lemma FullyCounted(sc: Scheme, contents: multiset<bytes>, y: bytes, i: nat, counts: Counts, snapshot: Counts)
    requires CountsMatch(sc, contents, counts) && y !in contents && i <= |sc.Ids(y)|
    requires Plus(snapshot, counts, sc.Ids(y)[..i])
    ensures Enough(sc, contents + multiset{y}, snapshot) <==> i == |sc.Ids(y)|
  {
    hide Total, Demand, Scheme.Ids;
    var ids := sc.Ids(y);
    DemandOfMore(sc, contents, y);
    assert ids == ids[..i] + ids[i..];
    if i < |ids| {
      assert ids[i..][0] in multiset(ids[i..]);
      assert Total(Demand(sc, contents + multiset{y}))[ids[i]] > Count(snapshot, ids[i]);
    } else {
      assert ids[..i] == ids;
    }
  }

  /** Nothing at all on disk, and nothing held. */
  lemma EmptyDisk(cfg: Config, known: iset<bytes>)
    ensures Safe(cfg, known, Held(multiset{}, {}), Disk(map[], map[], map[], map[], []))
    ensures CountsMatch(cfg.sc, multiset{}, map[])
  {
    assert Demand(cfg.sc, multiset{}) == map[];
    CleanSafe(cfg, known, Held(multiset{}, {}), Kept(map[], map[], map[], map[]));
  }

  // ---- Whole operations ----

  lemma LeavesSafe(cfg: Config, known: iset<bytes>, before: Held, after: Held, a: iset<Disk>, window: Disk,
                   rs: seq<Rec>, torn: bytes, op: byte, ids: seq<Id>)
    requires forall d :: d in a ==> Safe(cfg, known, before, d) || Safe(cfg, known, after, d) || d == window
    ensures Leaves(cfg, known, before, after, a, window, rs, torn, op, ids)
  {
    hide Safe, Spoiled;
  }

  /** With nothing but increments journalled and no half-written record, every state is safe. */
  lemma TidySafe(cfg: Config, known: iset<bytes>, before: Held, h: Held, k: Kept, past: iset<Disk>, window: Disk,
                 rs: seq<Rec>, ids: seq<Id>)
    requires Leaves(cfg, known, before, h, past, window, rs, [], INC, ids) && Increments(rs) && Covers(cfg, known, h, k)
    requires Survives(cfg, known, h, window) <==> Again(cfg.sc, h.contents, k.counts, rs + Changes(INC, ids))
    requires Safe(cfg, known, h, window) <==> Survives(cfg, known, h, window)
    ensures forall d :: d in past ==> Safe(cfg, known, before, d) || Safe(cfg, known, h, d)
  {
    hide Covers, Safe, Survives, Again;
    GenuineCovered(cfg, known, h, k);
    var all := rs + Changes(INC, ids);
    forall i | 0 <= i < |all|
      ensures all[i].op == INC && all[i].n == 1
    {
      if i < |rs| { assert all[i] == rs[i]; }
    }
    IncrementsAgain(cfg.sc, h.contents, k.counts, all);
    hide Image, Mixed;
  }

  lemma NothingJournalled(rs: seq<Rec>, file: bytes, op: byte, crc: Crc)
    ensures rs + Changes(op, []) == rs && file + Image(Changes(op, []), crc) == file
  {
    ImageOfNothing(op, crc);
  }

  lemma MatchAfterPut(sc: Scheme, h: Held, raws: map<Id, bytes>, c: bytes, indexed: bool, n: nat, counts: Counts,
                      now: Counts)
    requires CountsMatch(sc, h.contents, counts)
    requires indexed ==> now == counts
    requires !indexed ==> c !in h.contents && Plus(now, counts, sc.Ids(c))
    ensures CountsMatch(sc, AfterPut(sc, h, raws, counts, c, indexed, true, n).contents, now)
  {
    hide CountsMatch, Plus, Scheme.Ids, Enough;
    if !indexed {
      CountsOfFirst(sc, h.contents, c, counts, now);
    } else if c in h.contents {
      SameDemand(sc, h.contents, h.contents + multiset{c}, counts);
    } else if 0 < n && Whole(sc, h, raws, counts, c) {
      NothingNeeded(sc, h.contents, c, counts);
      SameDemand(sc, h.contents + multiset{c}, h.contents[c := n], counts);
    }
  }

  /** Exact counts that are enough for one content more: it has no chunks. */
  lemma NothingNeeded(sc: Scheme, contents: multiset<bytes>, c: bytes, counts: Counts)
    requires c !in contents && CountsMatch(sc, contents, counts) && Enough(sc, contents + multiset{c}, counts)
    ensures sc.Ids(c) == [] && CountsMatch(sc, contents + multiset{c}, counts)
  {
    hide Total, Demand, Scheme.Ids;
    DemandOfMore(sc, contents, c);
    var listed := multiset(sc.Ids(c));
    forall id
      ensures listed[id] == 0
    {
      assert Total(Demand(sc, contents + multiset{c}))[id] <= Count(counts, id);
    }
    assert listed == multiset{};
    assert |listed| == |sc.Ids(c)|;
  }

  lemma MatchWithout(sc: Scheme, h: Held, c: bytes, counts: Counts, now: Counts)
    requires c in h.contents
    requires h.contents[c] > 1 ==> now == counts
    requires h.contents[c] == 1 ==> Minus(now, counts, sc.Ids(c))
    ensures CountsMatch(sc, h.contents, counts) ==> CountsMatch(sc, Without(h, c).contents, now)
  {
    hide Minus, Scheme.Ids, CountsMatch, Total, Demand;
    if CountsMatch(sc, h.contents, counts) {
      if h.contents[c] > 1 {
        SameDemand(sc, h.contents, h.contents - multiset{c}, counts);
      } else {
        ExactlyCounted(sc, h.contents, c, counts, now);
        Matches(sc, Without(h, c).contents, now);
      }
    }
  }

  lemma Matches(sc: Scheme, contents: multiset<bytes>, counts: Counts)
    requires forall id :: Count(counts, id) == Total(Demand(sc, contents))[id]
    ensures CountsMatch(sc, contents, counts)
  {
  }

  /** The disk while a collection removes what is dead, in any order. */
  ghost function SweepDisks(d: Disk, dead: set<Id>): iset<Disk> {
    iset gone: set<Id> | gone <= dead :: d.(blobs := d.blobs - gone)
  }

  /** New content put into a store reopened with a half-written record: once the first of its own records is
      journalled, the disk reopens exactly if the mixed frame happens to be intact and can be applied. */
  lemma PutBehindTorn(cfg: Config, d: Disk, c: bytes, rs: seq<Rec>, torn: bytes, index: map<Id, Record>, counts: Counts)
    returns (e: Disk)
    requires d.journal == Image(rs, cfg.crc) + torn && |torn| < REC && cfg.sc.Ids(c) != [] && ApplyAll(d.refs, rs).Ok?
    ensures e in NewDisks(cfg, d, c, index, counts)
        && e.journal == d.journal + EncodeRec(Rec(INC, cfg.sc.Ids(c)[0], 1), cfg.crc)
    ensures var frame := Mixed(torn, Rec(INC, cfg.sc.Ids(c)[0], 1), cfg.crc);
      Recovered(e, cfg.crc).Ok?
      <==> Intact(frame, cfg.crc) && Apply(ApplyAll(d.refs, rs).counts, DecodeRec(frame)).Ok?
  {
    hide Image, ApplyAll, Apply, Replay, Intact, DecodeRec, EncodeRec, Mixed, RawOf, Scheme.Ids, Changes, PersistDisks;
    var ids := cfg.sc.Ids(c);
    var r, more := Rec(INC, ids[0], 1), Image(Changes(INC, ids), cfg.crc);
    var listed := d.(raws := d.raws[cfg.sc.objectId(c) := RawOf(cfg, c)]);
    FirstChange(ids);
    FirstOfImage(Changes(INC, ids), cfg.crc);
    var file := d.journal + more;
    assert file[..|d.journal| + REC] == d.journal + EncodeRec(r, cfg.crc);
    e := listed.(journal := file[..|d.journal| + REC]);
    assert e in Torn(listed, file);
    assert d.journal + EncodeRec(r, cfg.crc) == Image(rs, cfg.crc) + (torn + EncodeRec(r, cfg.crc));
    AppendBehindTorn(d.refs, rs, torn, r, cfg.crc);
  }

  lemma FirstChange(ids: seq<Id>)
    requires ids != []
    ensures Changes(INC, ids) != [] && Changes(INC, ids)[0] == Rec(INC, ids[0], 1)
  {
  }
}
