/** The checker of stored objects (internal/verify/verifier.go). */
module Verifying {
  import opened Bytes
  import opened Schemes
  import opened Backends
  import opened Manifests

  datatype Kind = ChunkHash | ChunkMissing | ChunkSize | ObjectHash | BadManifest | UnknownAlgo

  /** A fault at one chunk, or (None) of the whole object. */
  datatype ObjectFault = ObjectFault(kind: Kind, chunk: Option<nat>)

  /** A digest algorithm, as the two digests a store uses it for. */
  datatype Digests = Digests(chunkId: bytes -> Id, objectId: bytes -> Id)

  ghost predicate ChunkOk(d: Digests, blobs: map<Id, bytes>, e: Entry) {
    e.id in blobs && |blobs[e.id]| % TWO32 == e.size && d.chunkId(blobs[e.id]) == e.id
  }

  /** What the first n chunks read back as; missing ones contribute nothing. */
  ghost function ReadBack(blobs: map<Id, bytes>, es: seq<Entry>): bytes
  {
    if es == [] then []
    else
      var last := es[|es| - 1].id;
      ReadBack(blobs, es[..|es| - 1]) + if last in blobs then blobs[last] else []
  }

  /** The object is all there and unaltered. */
  ghost predicate Intact(d: Digests, blobs: map<Id, bytes>, m: Manifest) {
    && WellFormed(m)
    && (forall i :: 0 <= i < |m.chunks| ==>
          var e := m.chunks[i];
          e.id in blobs && |blobs[e.id]| == e.size && d.chunkId(blobs[e.id]) == e.id)
    && d.objectId(ReadBack(blobs, m.chunks)) == m.objectId
  }

  /** Sizes that agree modulo 2^32 and in total agree. */
  lemma {:induction false} SizesAgree(d: Digests, blobs: map<Id, bytes>, es: seq<Entry>)
    requires forall i :: 0 <= i < |es| ==> ChunkOk(d, blobs, es[i])
    ensures |ReadBack(blobs, es)| >= SizeSum(es)
    ensures |ReadBack(blobs, es)| == SizeSum(es) <==>
              forall i :: 0 <= i < |es| ==> es[i].id in blobs && |blobs[es[i].id]| == es[i].size
  {
    if es != [] {
      var n := |es| - 1;
      SizesAgree(d, blobs, es[..n]);
      assert forall i :: 0 <= i < n ==> es[..n][i] == es[i];
      AtLeastRemainder(|blobs[es[n].id]|);
    }
  }

  lemma AtLeastRemainder(n: nat)
    ensures n >= n % TWO32
  {
  }

  /** What kinds of fault are there at an entry: the chunk is missing; it has not the size or not the digest the
      entry says. */
  ghost predicate Wrong(d: Digests, blobs: map<Id, bytes>, e: Entry, kind: Kind) {
    match kind
    case ChunkMissing => e.id !in blobs
    case ChunkSize => e.id in blobs && |blobs[e.id]| % TWO32 != e.size
    case ChunkHash => e.id in blobs && d.chunkId(blobs[e.id]) != e.id
    case _ => false
  }

  lemma OkIfNoneWrong(d: Digests, blobs: map<Id, bytes>, e: Entry)
    ensures ChunkOk(d, blobs, e) <==> forall kind :: !Wrong(d, blobs, e, kind)
  {
    assert !Wrong(d, blobs, e, ChunkMissing) ==> e.id in blobs;
    assert e.id in blobs && !Wrong(d, blobs, e, ChunkSize) ==> |blobs[e.id]| % TWO32 == e.size;
    assert e.id in blobs && !Wrong(d, blobs, e, ChunkHash) ==> d.chunkId(blobs[e.id]) == e.id;
  }

  method CheckChunk(d: Digests, blobs: Memory, e: Entry, i: nat) returns (faults: seq<ObjectFault>, data: bytes)
    ensures faults == [] <==> ChunkOk(d, blobs.Readable(), e)
    ensures forall f :: f in faults <==> f.chunk == Some(i) && Wrong(d, blobs.Readable(), e, f.kind)
    ensures data == if e.id in blobs.Readable() then blobs.Readable()[e.id] else []
  {
    faults := [];
    var got := blobs.Get(e.id);
    if !got.Found? {
      return [ObjectFault(ChunkMissing, Some(i))], [];
    }
    data := got.data;
    if |data| % TWO32 != e.size {
      faults := faults + [ObjectFault(ChunkSize, Some(i))];
    }
    if d.chunkId(data) != e.id {
      faults := faults + [ObjectFault(ChunkHash, Some(i))];
    }
  }

  /** Is exactly what is wrong with the first n chunks reported? */
  ghost predicate ReportsChunks(d: Digests, blobs: map<Id, bytes>, es: seq<Entry>, n: nat, faults: seq<ObjectFault>)
    requires n <= |es|
  {
    forall f :: f in faults <==> f.chunk.Some? && f.chunk.value < n && Wrong(d, blobs, es[f.chunk.value], f.kind)
  }

  /** The loop over the chunks: hashes what it reads, counts it, and reports. */
  method CheckChunks(d: Digests, blobs: Memory, es: seq<Entry>) returns (faults: seq<ObjectFault>, fed: bytes,
                     wrote: uint64)
    ensures fed == ReadBack(blobs.Readable(), es) && wrote == |fed| % TWO64
    ensures ReportsChunks(d, blobs.Readable(), es, |es|, faults)
  {
    hide ChunkOk, ReportsChunks, Wrong;
    ghost var all := blobs.Readable();
    faults, fed, wrote := [], [], 0;
    NothingReported(d, all, es);
    for i := 0 to |es|
      invariant fed == ReadBack(all, es[..i]) && wrote == |fed| % TWO64
      invariant ReportsChunks(d, all, es, i, faults)
    {
      var more, data := CheckChunk(d, blobs, es[i], i);
      assert es[..i + 1][..i] == es[..i];
      NextReported(d, all, es, i, faults, more);
      WrapAdd(|fed|, |data|);
      faults, fed, wrote := faults + more, fed + data, (wrote + |data|) % TWO64;
    }
    assert es[..|es|] == es;
  }

  /** What the checker goes by: Intact, but with the bytes read back counted modulo 2^64. */
  ghost predicate Passes(d: Digests, blobs: map<Id, bytes>, m: Manifest) {
    && WellFormed(m)
    && (forall i :: 0 <= i < |m.chunks| ==> ChunkOk(d, blobs, m.chunks[i]))
    && |ReadBack(blobs, m.chunks)| % TWO64 == m.totalSize
    && d.objectId(ReadBack(blobs, m.chunks)) == m.objectId
  }

  /** The faults to be reported: no manifest, an unknown algorithm, a manifest that is not well formed; else
      whatever is wrong with its chunks; else a wrong total, counted modulo 2^64; else a wrong digest. */
  ghost predicate Deserved(algos: bytes -> Option<Digests>, blobs: map<Id, bytes>, mf: Option<Manifest>,
                           f: ObjectFault) {
    if mf.None? then f == ObjectFault(BadManifest, None)
    else if algos(mf.value.algo).None? then f == ObjectFault(UnknownAlgo, None)
    else if !WellFormed(mf.value) then f == ObjectFault(BadManifest, None)
    else
      var d, m := algos(mf.value.algo).value, mf.value;
      if exists i :: 0 <= i < |m.chunks| && !ChunkOk(d, blobs, m.chunks[i]) then
        f.chunk.Some? && f.chunk.value < |m.chunks| && Wrong(d, blobs, m.chunks[f.chunk.value], f.kind)
      else if |ReadBack(blobs, m.chunks)| % TWO64 != m.totalSize then f == ObjectFault(ChunkSize, None)
      else d.objectId(ReadBack(blobs, m.chunks)) != m.objectId && f == ObjectFault(ObjectHash, None)
  }

  /** Re-reads every chunk and recomputes every digest. Reports no fault exactly for intact objects, if
      fewer than 2^64 bytes are read back, and otherwise every chunk that is missing or not what the
      manifest says. In a closed backend every chunk is missing. */
  method Object(algos: bytes -> Option<Digests>, blobs: Memory, mf: Option<Manifest>) returns (faults: seq<ObjectFault>)
    ensures forall f :: f in faults <==> Deserved(algos, blobs.Readable(), mf, f)
    ensures faults == [] <==>
              mf.Some? && algos(mf.value.algo).Some? && Passes(algos(mf.value.algo).value, blobs.Readable(), mf.value)
    ensures mf.Some? && |ReadBack(blobs.Readable(), mf.value.chunks)| < TWO64 ==>
              (faults == [] <==>
                 algos(mf.value.algo).Some? && Intact(algos(mf.value.algo).value, blobs.Readable(), mf.value))
    ensures mf.Some? && algos(mf.value.algo).Some? && WellFormed(mf.value) ==>
              forall i :: 0 <= i < |mf.value.chunks|
                       && !ChunkOk(algos(mf.value.algo).value, blobs.Readable(), mf.value.chunks[i])
                ==> exists f :: f in faults && f.chunk == Some(i)
  {
    hide ChunkOk, Wrong, WellFormed, Intact, ReadBack;
    if mf.None? {
      return [ObjectFault(BadManifest, None)];
    }
    if algos(mf.value.algo).None? {
      return [ObjectFault(UnknownAlgo, None)];
    }
    var d := algos(mf.value.algo).value;
    PassesIsIntact(d, blobs.Readable(), mf.value);
    var valid := Validate(mf.value);
    if valid.Failure? {
      return [ObjectFault(BadManifest, None)];
    }
    var es := mf.value.chunks;
    var fed, wrote;
    faults, fed, wrote := CheckChunks(d, blobs, es);
    Faultless(d, blobs.Readable(), es, faults);
    if |faults| > 0 {
      return;
    }
    if wrote != mf.value.totalSize {
      return [ObjectFault(ChunkSize, None)];
    }
    if d.objectId(fed) != mf.value.objectId {
      return [ObjectFault(ObjectHash, None)];
    }
  }

  lemma Faultless(d: Digests, blobs: map<Id, bytes>, es: seq<Entry>, faults: seq<ObjectFault>)
    requires ReportsChunks(d, blobs, es, |es|, faults)
    ensures faults == [] <==> forall i :: 0 <= i < |es| ==> ChunkOk(d, blobs, es[i])
    ensures forall i :: 0 <= i < |es| && !ChunkOk(d, blobs, es[i]) ==> exists f :: f in faults && f.chunk == Some(i)
  {
    hide ChunkOk, Wrong;
    forall i | 0 <= i < |es|
      ensures ChunkOk(d, blobs, es[i]) <==> forall f :: f in faults ==> f.chunk != Some(i)
    {
      OkIfNoneWrong(d, blobs, es[i]);
      if !ChunkOk(d, blobs, es[i]) {
        var kind :| Wrong(d, blobs, es[i], kind);
        assert ObjectFault(kind, Some(i)) in faults;
      }
    }
    if faults != [] {
      assert faults[0] in faults;
    }
  }

  /** When fewer than 2^64 bytes are read back, to pass is to be intact. */
  lemma PassesIsIntact(d: Digests, blobs: map<Id, bytes>, m: Manifest)
    ensures |ReadBack(blobs, m.chunks)| < TWO64 ==> (Passes(d, blobs, m) <==> Intact(d, blobs, m))
  {
    hide WellFormed;
    IntactChunks(d, blobs, m);
    if forall i :: 0 <= i < |m.chunks| ==> ChunkOk(d, blobs, m.chunks[i]) {
      SizesAgree(d, blobs, m.chunks);
    }
    Totals(m);
  }

  lemma Totals(m: Manifest)
    ensures WellFormed(m) ==> m.totalSize == SizeSum(m.chunks)
  {
  }

  lemma IntactChunks(d: Digests, blobs: map<Id, bytes>, m: Manifest)
    ensures Intact(d, blobs, m) ==> forall i :: 0 <= i < |m.chunks| ==> ChunkOk(d, blobs, m.chunks[i])
  {
    forall i | 0 <= i < |m.chunks|
      ensures Intact(d, blobs, m) ==> ChunkOk(d, blobs, m.chunks[i])
    {
      SmallSize(m.chunks[i].size);
    }
  }

  lemma SmallSize(n: uint32)
    ensures n % TWO32 == n
  {
  }

  lemma NothingReported(d: Digests, blobs: map<Id, bytes>, es: seq<Entry>)
    ensures ReportsChunks(d, blobs, es, 0, [])
  {
  }

  lemma NextReported(d: Digests, blobs: map<Id, bytes>, es: seq<Entry>, i: nat, faults: seq<ObjectFault>,
                     more: seq<ObjectFault>)
    requires i < |es| && ReportsChunks(d, blobs, es, i, faults)
    requires forall f :: f in more <==> f.chunk == Some(i) && Wrong(d, blobs, es[i], f.kind)
    ensures ReportsChunks(d, blobs, es, i + 1, faults + more)
  {
    hide Wrong;
  }
}
