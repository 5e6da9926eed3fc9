/** How a store names things: the two digests and the split. A digest is any function at all; what
    is assumed of it is only that the contents a run meets do not collide. */
module Schemes {
  import opened Bytes
  import opened Policy
  import opened Boundary

  datatype Option<+T> = None | Some(value: T)

  datatype Scheme = Scheme(chunkId: bytes -> Id, objectId: bytes -> Id, pol: Policy, table: GearTable)
  {
    /** The chunks a content is stored as, in order. */
    function Pieces(c: bytes): seq<bytes> {
      Split(pol, table, c)
    }

    /** Their digests, with repetitions: the chunk list of the content's manifest. */
    function Ids(c: bytes): (ids: seq<Id>)
      ensures |ids| == |Pieces(c)|
    {
      var ps := Pieces(c);
      seq(|ps|, i requires 0 <= i < |ps| => chunkId(ps[i]))
    }

    /** On the byte strings in known, which include their own chunks, the digests are collision-free
        and never the all-zero "not assigned" value. */
    ghost predicate Sound(known: iset<bytes>) {
      && (forall a, b :: a in known && b in known && chunkId(a) == chunkId(b) ==> a == b)
      && (forall a, b :: a in known && b in known && objectId(a) == objectId(b) ==> a == b)
      && (forall a :: a in known ==> chunkId(a) != 0 && objectId(a) != 0)
      && (forall c, i :: c in known && 0 <= i < |Pieces(c)| ==> Pieces(c)[i] in known)
    }

    ghost predicate IsObject(known: iset<bytes>, o: Id) {
      exists c :: c in known && objectId(c) == o
    }

    /** The content an object digest stands for. */
    ghost function ContentOf(known: iset<bytes>, o: Id): (c: bytes)
      requires IsObject(known, o)
      ensures c in known && objectId(c) == o
    {
      var c :| c in known && objectId(c) == o; c
    }

    lemma ContentUnique(known: iset<bytes>, c: bytes)
      requires Sound(known) && c in known
      ensures IsObject(known, objectId(c)) && ContentOf(known, objectId(c)) == c
    {
    }
  }

  /** Every chunk is one of the known byte strings, stored under its own digest. */
  ghost predicate Genuine(sc: Scheme, known: iset<bytes>, blobs: map<Id, bytes>) {
    forall id :: id in blobs ==> blobs[id] in known && sc.chunkId(blobs[id]) == id
  }
}
