/** Reading an object back chunk by chunk, with any buffer sizes (get.go). */
module BlobReaders {
  import opened Bytes
  import opened Backends
  import opened Manifests

  datatype ReadResult = Data(data: bytes) | EndOfFile | ReaderClosed | ChunkError(why: Lookup)

  /** The chunks es, joined; every one of them has to be there. */
  ghost predicate Present(blobs: map<Id, bytes>, es: seq<Entry>) {
    forall i :: 0 <= i < |es| ==> es[i].id in blobs
  }

  ghost function Joined(blobs: map<Id, bytes>, es: seq<Entry>): bytes
    requires Present(blobs, es)
  {
    if es == [] then [] else blobs[es[0].id] + Joined(blobs, es[1..])
  }

  /** The chunks es, joined up to the first that is not there. */
  ghost function Front(blobs: map<Id, bytes>, es: seq<Entry>): bytes
  {
    if es == [] || es[0].id !in blobs then [] else blobs[es[0].id] + Front(blobs, es[1..])
  }

  lemma {:induction false} FrontIsAll(blobs: map<Id, bytes>, es: seq<Entry>)
    requires Present(blobs, es)
    ensures Front(blobs, es) == Joined(blobs, es)
  {
    if es != [] {
      FrontIsAll(blobs, es[1..]);
    }
  }

  class BlobReader {
    const blobs: Memory
    const mf: Manifest
    var i: nat
    var buf: bytes
    var off: nat
    var closed: bool

    ghost predicate Valid()
      reads this
    {
      i <= |mf.chunks| && off <= |buf|
    }

    /** Is everything still to be read in the backend? */
    ghost predicate Complete()
      reads this, blobs
      requires Valid()
    {
      !blobs.closed && Present(blobs.blobs, mf.chunks[i..])
    }

    /** What the reads to come will deliver. */
    ghost function Left(): bytes
      reads this, blobs
      requires Valid() && Complete()
    {
      buf[off..] + Joined(blobs.blobs, mf.chunks[i..])
    }

    /** What can still be read: all that is left, or what comes before the first chunk that is missing. */
    ghost function Ahead(): bytes
      reads this, blobs
      requires Valid()
    {
      buf[off..] + Front(blobs.Readable(), mf.chunks[i..])
    }

    /** Is no chunk to come missing? */
    ghost predicate AllThere()
      reads this, blobs
      requires Valid()
    {
      Present(blobs.Readable(), mf.chunks[i..])
    }

    lemma AtEnd()
      ensures Front(blobs.Readable(), []) == [] && Present(blobs.Readable(), []) && Joined(blobs.blobs, []) == []
    {
    }

    lemma AheadIsLeft()
      requires Valid() && Complete()
      ensures AllThere() && Ahead() == Left()
    {
      FrontIsAll(blobs.blobs, mf.chunks[i..]);
    }

    /** Open, with exactly c to deliver. */
    ghost predicate Opens(c: bytes)
      reads this, blobs
    {
      Valid() && !closed && Complete() && Left() == c
    }

    constructor (blobs: Memory, mf: Manifest)
      ensures Valid() && !closed && this.blobs == blobs && this.mf == mf
      ensures i == 0 && off == 0 && buf == []
    {
      this.blobs := blobs;
      this.mf := mf;
      i, buf, off, closed := 0, [], 0, false;
    }

    /** Fetches the next chunk when the last one has been delivered. */
    method Fetch() returns (got: Lookup)
      requires Valid() && off == |buf| && i < |mf.chunks|
      modifies this`i, this`buf, this`off
      ensures Valid() && (got.Found? ==> i == old(i) + 1)
      ensures !got.Found? ==> i == old(i) && buf == old(buf) && off == old(off) && !old(Complete())
      ensures !got.Found? ==> old(Ahead()) == [] && !old(AllThere())
      ensures got.Found? ==> Ahead() == old(Ahead()) && AllThere() == old(AllThere())
      ensures !got.Found? ==> got == if blobs.closed then Lookup.Closed else NotFound
      ensures old(Complete()) ==> got.Found? && Complete() && Left() == old(Left())
    {
      ghost var es := mf.chunks[i..];
      got := blobs.Get(mf.chunks[i].id);
      assert es[0] == mf.chunks[i] && es[1..] == mf.chunks[i + 1..];
      if got.Found? {
        buf, off, i := got.data, 0, i + 1;
        assert forall k :: 0 <= k < |mf.chunks| - old(i) - 1 ==> es[1..][k] == es[k + 1];
      }
    }

    /** Reads into a buffer of n bytes: the next bytes of the object, at least one if there is room and
        anything can be read; then end of file if no chunk is missing, and else the backend's error. */
    method Read(n: nat) returns (res: ReadResult)
      requires Valid()
      modifies this`i, this`buf, this`off
      ensures Valid()
      ensures closed <==> res == ReaderClosed
      ensures closed ==> i == old(i) && buf == old(buf) && off == old(off)
      ensures !closed && res.Data? ==>
                |res.data| <= n && old(Ahead()) == res.data + Ahead() && (n > 0 ==> res.data != [])
      ensures !closed ==> (res.Data? <==> old(Ahead()) != []) && AllThere() == old(AllThere())
      ensures !closed && !res.Data? ==> Ahead() == []
      ensures !closed && !res.Data? ==>
                res == if old(AllThere()) then EndOfFile
                       else ChunkError(if blobs.closed then Lookup.Closed else NotFound)
      ensures !closed && old(Complete()) ==>
        && Complete()
        && (res == EndOfFile || res.Data?)
        && (res == EndOfFile <==> old(Left()) == [])
        && (res == EndOfFile ==> Left() == [])
        && (res.Data? ==> |res.data| <= n && old(Left()) == res.data + Left() && (n > 0 ==> res.data != []))
      ensures res.ChunkError? ==> !old(Complete())
    {
      hide Front, Joined, Present;
      if closed {
        return ReaderClosed;
      }
      AtEnd();
      while true
        invariant Valid()
        invariant old(Complete()) ==> Complete() && Left() == old(Left())
        invariant Ahead() == old(Ahead()) && AllThere() == old(AllThere())
        decreases |mf.chunks| - i
      {
        if off < |buf| {
          var m := if n < |buf| - off then n else |buf| - off;
          assert buf[off..] == buf[off..off + m] + buf[off + m..];
          res := Data(buf[off..off + m]);
          off := off + m;
          return;
        }
        if i >= |mf.chunks| {
          assert mf.chunks[i..] == [] && buf[off..] == [];
          return EndOfFile;
        }
        var got := Fetch();
        if !got.Found? {
          return ChunkError(got);
        }
      }
    }

    method Close()
      modifies this`closed
      ensures closed
    {
      closed := true;
    }
  }

  /** Reads with the given buffer size until end of file. */
  method ReadAll(r: BlobReader, n: nat) returns (out: bytes)
    requires r.Valid() && !r.closed && r.Complete() && n > 0
    modifies r
    ensures out == old(r.Left()) && r.Valid()
  {
    hide Joined, Present, Front;
    out := [];
    while true
      invariant r.Valid() && !r.closed && r.Complete()
      invariant out + r.Left() == old(r.Left())
      decreases |r.Left()|
    {
      var res := r.Read(n);
      if res == EndOfFile {
        return out;
      }
      assert out + (res.data + r.Left()) == (out + res.data) + r.Left();
      out := out + res.data;
    }
  }
}
