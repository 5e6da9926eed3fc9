/** Bytes are conserved: what the reference counts weigh, what the index adds up to and what the backend
    stores (internal/index/index.go, internal/blobstore/memory.go, stats.go). */
module Conservation {
  import opened Bytes
  import opened Sums
  import opened Boundary
  import opened Schemes
  import opened Journals
  import opened Backends
  import opened Indexes
  import opened Holdings

  ghost function ContentSizes(contents: multiset<bytes>): map<bytes, nat> {
    map c | c in contents :: |c|
  }

  /** For every chunk that is counted: its count times its stored length. */
  ghost function CountedBytes(k: Kept): map<Id, nat> {
    map id | id in k.counts :: Times(k.counts[id], At(Lengths(k.blobs), id))
  }

  lemma PieceStored(sc: Scheme, known: iset<bytes>, blobs: map<Id, bytes>, c: bytes, i: nat)
    requires sc.Sound(known) && Genuine(sc, known, blobs) && ChunksPresent(sc, blobs, c) && c in known
    requires i < |sc.Pieces(c)|
    ensures sc.Ids(c)[i] in blobs && blobs[sc.Ids(c)[i]] == sc.Pieces(c)[i]
  {
    assert sc.Pieces(c)[i] in known && sc.Ids(c)[i] in blobs;
  }

  /** The chunks of a held content weigh as much as the content is long. */
  lemma {:induction false} WeightOfPieces(cfg: Config, known: iset<bytes>, blobs: map<Id, bytes>, c: bytes, n: nat)
    requires cfg.sc.Sound(known) && Genuine(cfg.sc, known, blobs) && ChunksPresent(cfg.sc, blobs, c) && c in known
    requires n <= |cfg.sc.Pieces(c)|
    ensures Weight(multiset(cfg.sc.Ids(c)[..n]), Lengths(blobs)) == |Concat(cfg.sc.Pieces(c)[..n])|
  {
    hide Scheme.Sound, Genuine, ChunksPresent, Scheme.Ids, Scheme.Pieces;
    var ids, ps := cfg.sc.Ids(c), cfg.sc.Pieces(c);
    if n == 0 {
      assert multiset(ids[..0]) == multiset{} && ps[..0] == [];
    } else {
      WeightOfPieces(cfg, known, blobs, c, n - 1);
      PieceStored(cfg.sc, known, blobs, c, n - 1);
      OneMorePiece(blobs, ids, ps, n);
    }
  }

  lemma OneMorePiece(blobs: map<Id, bytes>, ids: seq<Id>, ps: seq<bytes>, n: nat)
    requires 0 < n <= |ids| == |ps| && ids[n - 1] in blobs && blobs[ids[n - 1]] == ps[n - 1]
    ensures Weight(multiset(ids[..n]), Lengths(blobs)) == Weight(multiset(ids[..n - 1]), Lengths(blobs)) + |ps[n - 1]|
    ensures Concat(ps[..n]) == Concat(ps[..n - 1]) + ps[n - 1]
  {
    hide Weight, Concat;
    assert ids[..n] == ids[..n - 1] + [ids[n - 1]] && ps[..n] == ps[..n - 1] + [ps[n - 1]];
    ConcatSnoc(ps[..n - 1], ps[n - 1]);
    WeightPick(multiset(ids[..n]), Lengths(blobs), ids[n - 1]);
    assert multiset(ids[..n]) - multiset{ids[n - 1]} == multiset(ids[..n - 1]);
  }

  lemma WeightOfContent(cfg: Config, known: iset<bytes>, contents: multiset<bytes>, k: Kept, c: bytes)
    requires cfg.sc.Sound(known) && Holds(cfg, known, contents, k) && c in contents
    ensures Weight(multiset(cfg.sc.Ids(c)), Lengths(k.blobs)) == |c|
  {
    hide OnlyHeld, CountsMatch, Scheme.Sound, RawOf, RecordOf;
    assert HoldsOne(cfg, known, k, c, contents[c]);
    WeightOfPieces(cfg, known, k.blobs, c, |cfg.sc.Pieces(c)|);
    SplitConcat(cfg.sc.pol, cfg.sc.table, c);
    assert cfg.sc.Ids(c)[..|cfg.sc.Ids(c)|] == cfg.sc.Ids(c);
    assert cfg.sc.Pieces(c)[..|cfg.sc.Pieces(c)|] == cfg.sc.Pieces(c);
  }

  /** The demand of all contents together weighs what the contents are long. */
  lemma WeightOfDemand(cfg: Config, known: iset<bytes>, contents: multiset<bytes>, k: Kept)
    requires cfg.sc.Sound(known) && Holds(cfg, known, contents, k)
    ensures Weight(Total(Demand(cfg.sc, contents)), Lengths(k.blobs)) == Sum(ContentSizes(contents))
  {
    hide Holds, Scheme.Sound, Scheme.Ids, Weight, Total, Sum, Lengths;
    WeightTotal(Demand(cfg.sc, contents), Lengths(k.blobs));
    forall c | c in contents
      ensures Weight(multiset(cfg.sc.Ids(c)), Lengths(k.blobs)) == |c|
    {
      WeightOfContent(cfg, known, contents, k, c);
    }
    assert Weights(Demand(cfg.sc, contents), Lengths(k.blobs)) == ContentSizes(contents);
  }

  lemma CountsAsProducts(sc: Scheme, contents: multiset<bytes>, k: Kept)
    requires CountsMatch(sc, contents, k.counts) && NoZeros(k.counts)
    ensures CountedBytes(k) == Products(Total(Demand(sc, contents)), Lengths(k.blobs))
  {
    var d := Total(Demand(sc, contents));
    forall id
      ensures id in k.counts <==> id in d
      ensures id in k.counts ==> k.counts[id] == d[id]
    {
      assert Count(k.counts, id) == d[id];
    }
  }

  /** The index's total counts every held content once. */
  lemma IndexTotal(cfg: Config, known: iset<bytes>, contents: multiset<bytes>, k: Kept)
    requires cfg.sc.Sound(known) && Holds(cfg, known, contents, k)
    ensures Sum(Sizes(k.objects)) == Sum(ContentSizes(contents))
  {
    var to := map c | c in contents :: cfg.sc.objectId(c);
    forall c | c in contents
      ensures to[c] in k.objects && k.objects[to[c]].size == |c| && c in known
    {
      RecordedSize(cfg, known, contents, k, c);
    }
    forall o | o in Sizes(k.objects)
      ensures exists c :: c in ContentSizes(contents) && to[c] == o
    {
      assert cfg.sc.ContentOf(known, o) in contents && to[cfg.sc.ContentOf(known, o)] == o;
    }
    hide Holds;
    SumRefiled(ContentSizes(contents), Sizes(k.objects), to);
  }

  lemma RecordedSize(cfg: Config, known: iset<bytes>, contents: multiset<bytes>, k: Kept, c: bytes)
    requires Holds(cfg, known, contents, k) && c in contents
    ensures var o := cfg.sc.objectId(c); o in k.objects && k.objects[o].size == |c| && c in known
  {
    hide OnlyHeld, CountsMatch, Genuine, RawOf, ChunksPresent;
    assert HoldsOne(cfg, known, k, c, contents[c]);
    ManifestTotals(cfg, c);
    SmallIsItself(|c|, TWO64);
  }

  /** Summed over all counted chunks, count times length is the logical size of all objects. */
  lemma CountsWeighTheObjects(cfg: Config, known: iset<bytes>, contents: multiset<bytes>, k: Kept)
    requires cfg.sc.Sound(known) && Holds(cfg, known, contents, k) && NoZeros(k.counts)
    ensures Sum(CountedBytes(k)) == Sum(Sizes(k.objects)) == Sum(ContentSizes(contents))
  {
    IndexTotal(cfg, known, contents, k);
    WeightOfDemand(cfg, known, contents, k);
    assert CountsMatch(cfg.sc, contents, k.counts);
    hide Holds, CountsMatch, Scheme.Sound;
    CountsAsProducts(cfg.sc, contents, k);
    WeightIsProducts(Total(Demand(cfg.sc, contents)), Lengths(k.blobs));
  }

  /** Right after a collection the backend stores no more bytes than the objects are long together. */
  lemma UniqueAtMostLogical(cfg: Config, known: iset<bytes>, contents: multiset<bytes>, k: Kept)
    requires cfg.sc.Sound(known) && Holds(cfg, known, contents, k) && NoZeros(k.counts)
    requires forall id :: id in k.blobs ==> Count(k.counts, id) > 0
    ensures Sum(Lengths(k.blobs)) <= Sum(Sizes(k.objects))
  {
    CountsWeighTheObjects(cfg, known, contents, k);
    hide Holds, Scheme.Sound;
    forall id | id in k.blobs
      ensures id in CountedBytes(k) && Lengths(k.blobs)[id] <= CountedBytes(k)[id]
    {
      assert Count(k.counts, id) > 0;
      Scaled(k.counts[id], |k.blobs[id]|);
    }
    SumMonotone(Lengths(k.blobs), CountedBytes(k));
  }

  lemma Scaled(n: nat, len: nat)
    requires n >= 1
    ensures len <= Times(n, len)
  {
  }
}
