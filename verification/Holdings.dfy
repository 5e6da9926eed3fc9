/** What a store that holds a multiset of byte strings keeps for it: the abstraction relation between
    that multiset and the four tables, and how each operation moves along it. */
module Holdings {
  import opened Bytes
  import opened Sums
  import opened Policy
  import opened Boundary
  import opened Schemes
  import opened Manifests
  import opened Codec
  import opened Journals
  import opened Indexes

  /** Registered algorithm names fit the manifest's name field. */
  predicate NameOk(algo: bytes) {
    !Blank(algo) && |algo| <= 31 && NoNul(algo)
  }

  lemma ShortNameOk()
    ensures NameOk([115])
  {
    assert SpaceLen([115]) == 0;
  }

  type AlgoName = s: bytes | NameOk(s) ghost witness (ShortNameOk(); [115])

  /** How a store was opened. */
  datatype Config = Config(sc: Scheme, algo: AlgoName, crc: Crc)

  /** The manifest entries Put appends for the pieces ps. */
  function EntriesFor(sc: Scheme, ps: seq<bytes>): (es: seq<Entry>)
    ensures |es| == |ps|
  {
    seq(|ps|, i requires 0 <= i < |ps| =>
      Entry(sc.chunkId(ps[i]), |ps[i]| % TWO32, |Concat(ps[..i])| % TWO64))
  }

  function ManifestOf(cfg: Config, c: bytes): Manifest {
    Made(cfg.algo, cfg.sc.pol.avg, cfg.sc.pol.mode == Cdc, cfg.sc.objectId(c), EntriesFor(cfg.sc, cfg.sc.Pieces(c)))
  }

  /** The bytes of that manifest, as they are stored. */
  function RawOf(cfg: Config, c: bytes): bytes {
    Encoded(ManifestOf(cfg, c), cfg.crc)
  }

  lemma {:induction false} EntrySums(sc: Scheme, ps: seq<bytes>, n: nat)
    requires n <= |ps| && forall i :: 0 <= i < |ps| ==> |ps[i]| < TWO32
    ensures SizeSum(EntriesFor(sc, ps)[..n]) == |Concat(ps[..n])|
  {
    if n > 0 {
      var es := EntriesFor(sc, ps);
      EntrySums(sc, ps, n - 1);
      assert es[..n][..n - 1] == es[..n - 1];
      assert ps[..n] == ps[..n - 1] + [ps[n - 1]];
      ConcatSnoc(ps[..n - 1], ps[n - 1]);
      SmallIsItself(|ps[n - 1]|, TWO32);
    }
  }

  lemma SmallIsItself(n: nat, m: nat)
    requires n < m
    ensures n % m == n
  {
  }

  lemma PieceSizes(sc: Scheme, c: bytes)
    ensures forall i :: 0 <= i < |sc.Pieces(c)| ==> 1 <= |sc.Pieces(c)[i]| <= 0x100_0000
  {
    forall i | 0 <= i < |sc.Pieces(c)|
      ensures 1 <= |sc.Pieces(c)[i]| <= 0x100_0000
    {
      SplitSizes(sc.pol, sc.table, c, i);
    }
  }

  /** The totals of a content's manifest: nothing is lost in the 32-bit sizes, no sum wraps. */
  lemma ManifestTotals(cfg: Config, c: bytes)
    requires |cfg.sc.Pieces(c)| <= MAX_CHUNKS
    ensures var m := ManifestOf(cfg, c);
      && SizeSum(m.chunks) == m.totalSize == |c| < TWO64
      && (forall i :: 0 <= i < |m.chunks| ==>
            m.chunks[i].size == |cfg.sc.Pieces(c)[i]| && m.chunks[i].offset == SizeSum(m.chunks[..i]))
  {
    var m, ps := ManifestOf(cfg, c), cfg.sc.Pieces(c);
    PieceSizes(cfg.sc, c);
    SplitConcat(cfg.sc.pol, cfg.sc.table, c);
    EntrySums(cfg.sc, ps, |ps|);
    assert ps[..|ps|] == ps && m.chunks[..|ps|] == m.chunks;
    SizeSumBound(m.chunks);
    SmallIsItself(|c|, TWO64);
    forall i | 0 <= i < |m.chunks|
      ensures m.chunks[i].size == |ps[i]| && m.chunks[i].offset == SizeSum(m.chunks[..i])
    {
      EntrySums(cfg.sc, ps, i);
      SizeSumPrefix(m.chunks, i);
      SmallIsItself(|ps[i]|, TWO32);
      SmallIsItself(|Concat(ps[..i])|, TWO64);
    }
  }

  lemma FlagMeansCdc(cfg: Config, c: bytes)
    ensures ManifestOf(cfg, c).IsCdc() <==> cfg.sc.pol.mode == Cdc
  {
    assert And(1, 1) == 1 + 2 * And(0, 0);
  }

  /** A manifest Put builds from the splitter's pieces validates exactly when there are at most 2^20 of
      them, in fixed and in content-defined mode. */
  lemma BuiltManifestValid(cfg: Config, known: iset<bytes>, c: bytes)
    requires cfg.sc.Sound(known) && c in known
    ensures WellFormed(ManifestOf(cfg, c)) <==> |cfg.sc.Pieces(c)| <= 1048576
  {
    var m, ps := ManifestOf(cfg, c), cfg.sc.Pieces(c);
    if |ps| <= MAX_CHUNKS {
      ManifestTotals(cfg, c);
      FlagMeansCdc(cfg, c);
      forall i | 0 <= i < |m.chunks|
        ensures EntryOk(m, i)
      {
        SplitSizes(cfg.sc.pol, cfg.sc.table, c, i);
        assert ps[i] in known;
      }
    }
  }

  lemma ManifestIds(cfg: Config, c: bytes)
    ensures ChunkIds(ManifestOf(cfg, c)) == cfg.sc.Ids(c)
  {
  }

  /** What Delete and Get decode is what Put encoded. */
  lemma ManifestComesBack(cfg: Config, known: iset<bytes>, c: bytes)
    requires cfg.sc.Sound(known) && c in known && |cfg.sc.Pieces(c)| <= MAX_CHUNKS
    ensures var raw := RawOf(cfg, c);
      Readable(raw, cfg.crc) && Meaning(raw, cfg.crc) == ManifestOf(cfg, c)
  {
    BuiltManifestValid(cfg, known, c);
    RoundTrip(ManifestOf(cfg, c), cfg.crc);
  }

  // ---- The abstraction relation ----

  datatype Kept = Kept(
    blobs: map<Id, bytes>,
    counts: Counts,
    objects: map<Id, Record>,
    raws: map<Id, bytes>)

  ghost function Demand(sc: Scheme, contents: multiset<bytes>): map<bytes, multiset<Id>> {
    map c | c in contents :: multiset(sc.Ids(c))
  }

  function RecordOf(sc: Scheme, c: bytes, n: uint32): Record {
    Record(sc.objectId(c), n, |c| % TWO64, |sc.Pieces(c)| % TWO32)
  }

  ghost predicate ChunksPresent(sc: Scheme, blobs: map<Id, bytes>, c: bytes) {
    forall i :: 0 <= i < |sc.Pieces(c)| ==> sc.Ids(c)[i] in blobs
  }

  /** One held content: its index record carries its multiplicity, its manifest is stored, its chunks are there. */
  ghost predicate HoldsOne(cfg: Config, known: iset<bytes>, k: Kept, c: bytes, copies: nat) {
    var o := cfg.sc.objectId(c);
    && c in known && |cfg.sc.Pieces(c)| <= MAX_CHUNKS && copies < TWO32
    && o in k.objects && k.objects[o] == RecordOf(cfg.sc, c, copies)
    && o in k.raws && k.raws[o] == RawOf(cfg, c)
    && ChunksPresent(cfg.sc, k.blobs, c)
  }

  ghost predicate HoldsAll(cfg: Config, known: iset<bytes>, contents: multiset<bytes>, k: Kept) {
    forall c :: c in contents ==> HoldsOne(cfg, known, k, c, contents[c])
  }

  /** Nothing is indexed that is not held, and exactly the indexed objects have a manifest. */
  ghost predicate OnlyHeld(cfg: Config, known: iset<bytes>, contents: multiset<bytes>, k: Kept) {
    && (forall o :: o in k.objects ==> cfg.sc.IsObject(known, o) && cfg.sc.ContentOf(known, o) in contents)
    && k.raws.Keys == k.objects.Keys
  }

  ghost predicate CountsMatch(sc: Scheme, contents: multiset<bytes>, counts: Counts) {
    forall id :: Count(counts, id) == Total(Demand(sc, contents))[id]
  }

  /** The tables k hold exactly the multiset contents. Chunks nobody needs may be there besides. */
  ghost predicate Holds(cfg: Config, known: iset<bytes>, contents: multiset<bytes>, k: Kept) {
    && HoldsAll(cfg, known, contents, k)
    && OnlyHeld(cfg, known, contents, k)
    && Genuine(cfg.sc, known, k.blobs)
    && CountsMatch(cfg.sc, contents, k.counts)
  }

  lemma HoldsNothing(cfg: Config, known: iset<bytes>)
    ensures Holds(cfg, known, multiset{}, Kept(map[], map[], map[], map[]))
  {
    assert Demand(cfg.sc, multiset{}) == map[];
  }

  /** An object is indexed exactly when its content is held. */
  lemma IndexedIffHeld(cfg: Config, known: iset<bytes>, contents: multiset<bytes>, k: Kept, c: bytes)
    requires cfg.sc.Sound(known) && Holds(cfg, known, contents, k) && c in known
    ensures cfg.sc.objectId(c) in k.objects <==> c in contents
    ensures c in contents ==> HoldsOne(cfg, known, k, c, contents[c])
  {
    hide CountsMatch, Genuine, RawOf, RecordOf, ChunksPresent;
    cfg.sc.ContentUnique(known, c);
  }

  /** More genuine chunks in the backend change nothing else. */
  lemma MoreChunks(cfg: Config, known: iset<bytes>, contents: multiset<bytes>, k: Kept, blobs: map<Id, bytes>)
    requires Holds(cfg, known, contents, k)
    requires Genuine(cfg.sc, known, blobs) && k.blobs.Keys <= blobs.Keys
    ensures Holds(cfg, known, contents, k.(blobs := blobs))
  {
    hide CountsMatch, Genuine, RawOf, RecordOf;
    forall c | c in contents
      ensures HoldsOne(cfg, known, k.(blobs := blobs), c, contents[c])
    {
      assert HoldsOne(cfg, known, k, c, contents[c]);
    }
  }

  lemma VersionStays(cfg: Config, c: bytes)
    ensures ManifestOf(cfg, c).(version := VERSION1) == ManifestOf(cfg, c)
    ensures |ManifestOf(cfg, c).chunks| == |cfg.sc.Pieces(c)|
    ensures RawOf(cfg, c) == Encoded(ManifestOf(cfg, c), cfg.crc)
  {
  }

  /** The manifest m tells of the content c: what algorithm and policy it was stored with, its digest and length,
      and of every piece in order the digest, the length and the place. */
  ghost predicate Tells(cfg: Config, m: Manifest, c: bytes) {
    var ps := cfg.sc.Pieces(c);
    && m.version == 1 && m.flags == (if cfg.sc.pol.mode == Cdc then 1 else 0)
    && m.algo == cfg.algo && m.chunkSize == cfg.sc.pol.avg
    && m.objectId == cfg.sc.objectId(c) && m.totalSize == |c|
    && |m.chunks| == |ps|
    && (forall i :: 0 <= i < |ps| ==>
          && m.chunks[i].id == cfg.sc.chunkId(ps[i]) && m.chunks[i].size == |ps[i]|
          && m.chunks[i].offset == |Concat(ps[..i])|)
    && (cfg.sc.pol.mode == Fixed ==> forall i :: 0 <= i < |ps| - 1 ==> m.chunks[i].size == m.chunkSize > 0)
  }

  /** The manifest Put writes, as it reads back. */
  lemma StoredTells(cfg: Config, known: iset<bytes>, c: bytes)
    requires cfg.sc.Sound(known) && c in known && |cfg.sc.Pieces(c)| <= MAX_CHUNKS
    ensures Readable(RawOf(cfg, c), cfg.crc) && Tells(cfg, Meaning(RawOf(cfg, c), cfg.crc), c)
  {
    hide Readable, Meaning, ManifestOf, RawOf, Tells, Scheme.Sound;
    ManifestComesBack(cfg, known, c);
    ManifestTells(cfg, c);
  }

  lemma ManifestTells(cfg: Config, c: bytes)
    requires |cfg.sc.Pieces(c)| <= MAX_CHUNKS
    ensures Tells(cfg, ManifestOf(cfg, c), c)
  {
    hide Scheme.Pieces;
    var m, ps := ManifestOf(cfg, c), cfg.sc.Pieces(c);
    ManifestTotals(cfg, c);
    forall i | 0 <= i < |ps|
      ensures m.chunks[i].offset == |Concat(ps[..i])|
    {
      PlaceOf(cfg.sc, c, i);
      SmallIsItself(|Concat(ps[..i])|, TWO64);
    }
    forall i | 0 <= i < |ps| - 1
      ensures cfg.sc.pol.mode == Fixed ==> |ps[i]| == cfg.sc.pol.avg
    {
      BlockSize(cfg.sc, c, i);
    }
  }

  lemma BlockSize(sc: Scheme, c: bytes, i: nat)
    requires i < |sc.Pieces(c)| - 1
    ensures sc.pol.mode == Fixed ==> |sc.Pieces(c)[i]| == sc.pol.avg
  {
    SplitSizes(sc.pol, sc.table, c, i);
  }

  /** A piece begins within the content, so its place needs no more than 64 bits if the length does not. */
  lemma PlaceOf(sc: Scheme, c: bytes, i: nat)
    requires i <= |sc.Pieces(c)|
    ensures |Concat(sc.Pieces(c)[..i])| <= |c|
  {
    var ps := sc.Pieces(c);
    SplitConcat(sc.pol, sc.table, c);
    assert ps == ps[..i] + ps[i..];
    ConcatAppend(ps[..i], ps[i..]);
  }

  /** The record Put enters for a first copy. */
  lemma FirstRecord(cfg: Config, c: bytes, entries: seq<Entry>)
    requires |cfg.sc.Pieces(c)| <= MAX_CHUNKS && entries == EntriesFor(cfg.sc, cfg.sc.Pieces(c))
    ensures Record(cfg.sc.objectId(c), 1, ManifestOf(cfg, c).totalSize, |entries| % TWO32) == RecordOf(cfg.sc, c, 1)
  {
    ManifestTotals(cfg, c);
    SmallIsItself(|c|, TWO64);
  }

  lemma OneHeld(cfg: Config, known: iset<bytes>, contents: multiset<bytes>, k: Kept, c: bytes)
    requires HoldsAll(cfg, known, contents, k) && c in contents
    ensures HoldsOne(cfg, known, k, c, contents[c])
  {
  }

  // ---- Moving along the relation ----

  /** The step from contents to contents' changes the number of copies of c only, and the step from k to
      k' changes the record and the manifest of c's object only. */
  ghost predicate ChangesOne(cfg: Config, contents: multiset<bytes>, contents': multiset<bytes>, k: Kept, k': Kept,
                             c: bytes) {
    var o := cfg.sc.objectId(c);
    && (forall d :: d != c ==> contents'[d] == contents[d])
    && k'.blobs == k.blobs
    && (forall q :: q != o ==>
          (q in k'.objects <==> q in k.objects) && (q in k.objects ==> k'.objects[q] == k.objects[q]))
    && (forall q :: q != o ==> (q in k'.raws <==> q in k.raws) && (q in k.raws ==> k'.raws[q] == k.raws[q]))
  }

  lemma OtherObject(cfg: Config, known: iset<bytes>, c: bytes, d: bytes)
    requires cfg.sc.Sound(known) && c in known && d in known && c != d
    ensures cfg.sc.objectId(c) != cfg.sc.objectId(d)
  {
  }

  lemma OthersHeld(cfg: Config, known: iset<bytes>, contents: multiset<bytes>, contents': multiset<bytes>, k: Kept,
                   k': Kept, c: bytes)
    requires cfg.sc.Sound(known) && HoldsAll(cfg, known, contents, k) && c in known
    requires ChangesOne(cfg, contents, contents', k, k', c)
    requires c in contents' ==> HoldsOne(cfg, known, k', c, contents'[c])
    ensures HoldsAll(cfg, known, contents', k')
  {
    hide RawOf, RecordOf, ChunksPresent, Scheme.Sound;
    forall d | d in contents'
      ensures HoldsOne(cfg, known, k', d, contents'[d])
    {
      if d != c {
        assert d in contents && HoldsOne(cfg, known, k, d, contents[d]);
        OtherObject(cfg, known, c, d);
      }
    }
  }

  lemma ContentApart(sc: Scheme, known: iset<bytes>, q: Id, c: bytes)
    requires sc.IsObject(known, q) && q != sc.objectId(c)
    ensures sc.ContentOf(known, q) != c
  {
  }

  lemma OthersListed(cfg: Config, known: iset<bytes>, contents: multiset<bytes>, contents': multiset<bytes>, k: Kept,
                     k': Kept, c: bytes)
    requires cfg.sc.Sound(known) && OnlyHeld(cfg, known, contents, k) && c in known
    requires ChangesOne(cfg, contents, contents', k, k', c)
    requires var o := cfg.sc.objectId(c); (o in k'.objects <==> o in k'.raws) && (o in k'.objects <==> c in contents')
    ensures OnlyHeld(cfg, known, contents', k')
  {
    hide Scheme.Sound, Scheme.IsObject;
    cfg.sc.ContentUnique(known, c);
    hide Scheme.ContentOf;
    var o := cfg.sc.objectId(c);
    forall q | q in k'.objects
      ensures cfg.sc.IsObject(known, q) && cfg.sc.ContentOf(known, q) in contents'
    {
      if q != o {
        assert cfg.sc.IsObject(known, q) && cfg.sc.ContentOf(known, q) in contents;
        ContentApart(cfg.sc, known, q, c);
      }
    }
    forall q: Id
      ensures q in k'.raws <==> q in k'.objects
    {
      if q != o { assert q in k.raws <==> q in k.objects; }
    }
  }

  /** Another copy of a held content: only its use count goes up. */
  lemma OneCopyMore(cfg: Config, known: iset<bytes>, contents: multiset<bytes>, k: Kept, c: bytes)
    requires cfg.sc.Sound(known) && Holds(cfg, known, contents, k)
    requires c in contents && contents[c] + 1 < TWO32
    ensures Holds(cfg, known, contents + multiset{c},
                  k.(objects := k.objects[cfg.sc.objectId(c) := RecordOf(cfg.sc, c, contents[c] + 1)]))
  {
    hide Holds, RecordOf, Scheme.Sound;
    CopiesChange(cfg, known, contents, contents + multiset{c}, k, c);
  }

  lemma CopiesFit(cfg: Config, known: iset<bytes>, contents: multiset<bytes>, k: Kept, c: bytes)
    requires Holds(cfg, known, contents, k) && c in contents
    ensures contents[c] < TWO32
  {
    hide OnlyHeld, Genuine, CountsMatch, RecordOf, RawOf, ChunksPresent;
    assert HoldsOne(cfg, known, k, c, contents[c]);
  }

  /** One copy of several goes: only the use count goes down. */
  lemma OneCopyLess(cfg: Config, known: iset<bytes>, contents: multiset<bytes>, k: Kept, c: bytes)
    requires cfg.sc.Sound(known) && Holds(cfg, known, contents, k) && contents[c] > 1
    ensures Holds(cfg, known, contents - multiset{c},
                  k.(objects := k.objects[cfg.sc.objectId(c) := RecordOf(cfg.sc, c, contents[c] - 1)]))
  {
    hide Holds, RecordOf, Scheme.Sound;
    CopiesFit(cfg, known, contents, k, c);
    CopiesChange(cfg, known, contents, contents - multiset{c}, k, c);
  }

  lemma CopiesChange(cfg: Config, known: iset<bytes>, contents: multiset<bytes>, contents': multiset<bytes>, k: Kept,
                     c: bytes)
    requires cfg.sc.Sound(known) && Holds(cfg, known, contents, k)
    requires c in contents && 0 < contents'[c] < TWO32 && forall d :: d != c ==> contents'[d] == contents[d]
    ensures Holds(cfg, known, contents',
                  k.(objects := k.objects[cfg.sc.objectId(c) := RecordOf(cfg.sc, c, contents'[c])]))
  {
    hide CountsMatch, Genuine, RawOf, RecordOf, ChunksPresent, Scheme.Sound, HoldsAll, OnlyHeld;
    OneHeld(cfg, known, contents, k, c);
    var k' := k.(objects := k.objects[cfg.sc.objectId(c) := RecordOf(cfg.sc, c, contents'[c])]);
    OthersHeld(cfg, known, contents, contents', k, k', c);
    OthersListed(cfg, known, contents, contents', k, k', c);
    SameDemand(cfg.sc, contents, contents', k.counts);
  }

  /** The demand for chunks does not depend on how many copies there are. */
  lemma SameDemand(sc: Scheme, contents: multiset<bytes>, contents': multiset<bytes>, counts: Counts)
    requires CountsMatch(sc, contents, counts)
    requires forall c :: c in contents <==> c in contents'
    ensures CountsMatch(sc, contents', counts)
  {
    assert Demand(sc, contents') == Demand(sc, contents);
  }

  lemma DemandOfMore(sc: Scheme, contents: multiset<bytes>, c: bytes)
    requires c !in contents
    ensures Total(Demand(sc, contents + multiset{c})) == Total(Demand(sc, contents)) + multiset(sc.Ids(c))
  {
    hide Total, Scheme.Ids;
    var m := Demand(sc, contents);
    assert Demand(sc, contents + multiset{c}) == m[c := multiset(sc.Ids(c))];
    TotalSet(m, c, multiset(sc.Ids(c)));
  }

  lemma DemandOfLess(sc: Scheme, contents: multiset<bytes>, c: bytes)
    requires contents[c] == 1
    ensures Total(Demand(sc, contents)) == Total(Demand(sc, contents - multiset{c})) + multiset(sc.Ids(c))
  {
    hide Total, Scheme.Ids;
    var m := Demand(sc, contents);
    assert Demand(sc, contents - multiset{c}) == m - {c};
    TotalPick(m, c);
  }

  lemma CountsOfFirst(sc: Scheme, contents: multiset<bytes>, c: bytes, counts: Counts, counts': Counts)
    requires CountsMatch(sc, contents, counts) && c !in contents && Plus(counts', counts, sc.Ids(c))
    ensures CountsMatch(sc, contents + multiset{c}, counts')
  {
    DemandOfMore(sc, contents, c);
  }

  lemma CountsOfLast(sc: Scheme, contents: multiset<bytes>, c: bytes, counts: Counts, counts': Counts)
    requires CountsMatch(sc, contents, counts) && contents[c] == 1 && Plus(counts, counts', sc.Ids(c))
    ensures CountsMatch(sc, contents - multiset{c}, counts')
  {
    DemandOfLess(sc, contents, c);
  }

  lemma FirstEntered(cfg: Config, known: iset<bytes>, contents: multiset<bytes>, k: Kept, c: bytes, counts: Counts)
    requires c in known && c !in contents && |cfg.sc.Pieces(c)| <= MAX_CHUNKS && ChunksPresent(cfg.sc, k.blobs, c)
    ensures var o := cfg.sc.objectId(c);
      var k' := Kept(k.blobs, counts, k.objects[o := RecordOf(cfg.sc, c, 1)], k.raws[o := RawOf(cfg, c)]);
      ChangesOne(cfg, contents, contents + multiset{c}, k, k', c) && HoldsOne(cfg, known, k', c, 1)
  {
    hide RawOf, RecordOf, ChunksPresent;
  }

  /** The first copy of a content: its chunks are counted, its manifest stored, its record entered. */
  lemma FirstCopy(cfg: Config, known: iset<bytes>, contents: multiset<bytes>, k: Kept, c: bytes, counts: Counts)
    requires cfg.sc.Sound(known) && Holds(cfg, known, contents, k)
    requires c in known && c !in contents && |cfg.sc.Pieces(c)| <= MAX_CHUNKS && ChunksPresent(cfg.sc, k.blobs, c)
    requires Plus(counts, k.counts, cfg.sc.Ids(c))
    ensures var o := cfg.sc.objectId(c);
      Holds(cfg, known, contents + multiset{c},
            Kept(k.blobs, counts, k.objects[o := RecordOf(cfg.sc, c, 1)], k.raws[o := RawOf(cfg, c)]))
  {
    hide CountsMatch, Genuine, RawOf, RecordOf, ChunksPresent, Scheme.Sound, Plus, HoldsOne, HoldsAll, OnlyHeld,
      ChangesOne;
    var o := cfg.sc.objectId(c);
    var k' := Kept(k.blobs, counts, k.objects[o := RecordOf(cfg.sc, c, 1)], k.raws[o := RawOf(cfg, c)]);
    assert (contents + multiset{c})[c] == 1;
    FirstEntered(cfg, known, contents, k, c, counts);
    OthersHeld(cfg, known, contents, contents + multiset{c}, k, k', c);
    OthersListed(cfg, known, contents, contents + multiset{c}, k, k', c);
    CountsOfFirst(cfg.sc, contents, c, k.counts, counts);
  }

  /** Every chunk of a held content is counted at least as often as its manifest lists it, so taking its
      references away cannot fail. */
  lemma CountedEnough(sc: Scheme, contents: multiset<bytes>, counts: Counts, c: bytes)
    requires CountsMatch(sc, contents, counts) && c in contents
    ensures forall id :: multiset(sc.Ids(c))[id] <= Count(counts, id)
  {
    TotalCovers(Demand(sc, contents), c);
    assert Demand(sc, contents)[c] == multiset(sc.Ids(c));
  }

  /** The last copy goes: references, record and manifest are taken back. */
  lemma LastCopy(cfg: Config, known: iset<bytes>, contents: multiset<bytes>, k: Kept, c: bytes, counts: Counts)
    requires cfg.sc.Sound(known) && Holds(cfg, known, contents, k) && contents[c] == 1
    requires Plus(k.counts, counts, cfg.sc.Ids(c))
    ensures var o := cfg.sc.objectId(c);
      Holds(cfg, known, contents - multiset{c}, Kept(k.blobs, counts, k.objects - {o}, k.raws - {o}))
  {
    hide CountsMatch, Genuine, RawOf, RecordOf, ChunksPresent, Scheme.Sound, Plus, HoldsAll, OnlyHeld;
    var o := cfg.sc.objectId(c);
    var k' := Kept(k.blobs, counts, k.objects - {o}, k.raws - {o});
    OneHeld(cfg, known, contents, k, c);
    OthersHeld(cfg, known, contents, contents - multiset{c}, k, k', c);
    OthersListed(cfg, known, contents, contents - multiset{c}, k, k', c);
    CountsOfLast(cfg.sc, contents, c, k.counts, counts);
  }

  lemma NotDead(sc: Scheme, contents: multiset<bytes>, counts: Counts, c: bytes, blobs: map<Id, bytes>, dead: set<Id>)
    requires CountsMatch(sc, contents, counts) && c in contents && ChunksPresent(sc, blobs, c)
    requires forall id :: id in dead ==> Count(counts, id) == 0
    ensures ChunksPresent(sc, blobs - dead, c)
  {
    CountedEnough(sc, contents, counts, c);
    forall i | 0 <= i < |sc.Pieces(c)|
      ensures sc.Ids(c)[i] !in dead
    {
      assert sc.Ids(c)[i] in multiset(sc.Ids(c));
    }
  }

  /** Removing chunks whose count is zero hurts no held content. */
  lemma DeadChunksGone(cfg: Config, known: iset<bytes>, contents: multiset<bytes>, k: Kept, dead: set<Id>)
    requires Holds(cfg, known, contents, k) && forall id :: id in dead ==> Count(k.counts, id) == 0
    ensures Holds(cfg, known, contents, k.(blobs := k.blobs - dead))
  {
    hide RawOf, RecordOf, CountsMatch, ChunksPresent;
    forall c | c in contents
      ensures HoldsOne(cfg, known, k.(blobs := k.blobs - dead), c, contents[c])
    {
      assert HoldsOne(cfg, known, k, c, contents[c]);
      NotDead(cfg.sc, contents, k.counts, c, k.blobs, dead);
    }
  }
}
