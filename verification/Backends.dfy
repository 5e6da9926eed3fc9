/** The in-memory chunk backend (internal/blobstore/memory.go). */
module Backends {
  import opened Bytes
  import opened Sums

  datatype Lookup = Found(data: bytes) | NotFound | Closed

  ghost function Lengths(blobs: map<Id, bytes>): map<Id, nat> {
    map id | id in blobs :: |blobs[id]|
  }

  /** Do the listed ids name every key exactly once? */
  ghost predicate Lists(ids: seq<Id>, keys: set<Id>) {
    && (forall i :: 0 <= i < |ids| ==> ids[i] in keys)
    && (forall id :: id in keys ==> id in ids)
    && (forall i, j :: 0 <= i < j < |ids| ==> ids[i] != ids[j])
  }

  /** Every listing of the keys has as many entries as there are keys. */
  lemma {:induction false} ListedOnce(ids: seq<Id>, keys: set<Id>)
    requires Lists(ids, keys)
    ensures |ids| == |keys|
    decreases |ids|
  {
    if ids == [] {
      assert keys == {};
    } else {
      var n := |ids|;
      var last := ids[n - 1];
      forall id | id in keys - {last}
        ensures id in ids[..n - 1]
      {
        var j :| 0 <= j < n && ids[j] == id;
        assert ids[..n - 1][j] == id;
      }
      ListedOnce(ids[..n - 1], keys - {last});
      assert keys == keys - {last} + {last};
    }
  }

  /** The keys of a Go map in some order. */
  method InSomeOrder(keys: set<Id>) returns (ids: seq<Id>)
    ensures Lists(ids, keys)
  {
    ids := [];
    var todo := keys;
    while todo != {}
      invariant todo <= keys && Lists(ids, keys - todo)
      decreases |todo|
    {
      var id :| id in todo;
      ids, todo := ids + [id], todo - {id};
    }
    assert keys - todo == keys;
  }

  class Memory {
    var blobs: map<Id, bytes>
    var nbytes: int
    var closed: bool

    /** The running total is the sum of the stored lengths. */
    ghost predicate Valid()
      reads this
    {
      nbytes == Sum(Lengths(blobs))
    }

    /** What Get finds: nothing once the backend is closed. */
    ghost function Readable(): map<Id, bytes>
      reads this
    {
      if closed then map[] else blobs
    }

    constructor ()
      ensures Valid() && blobs == map[] && !closed
    {
      blobs, nbytes, closed := map[], 0, false;
      assert Lengths(map[]) == map[];
    }

    /** Keeps what is already there under this id. */
    method Put(id: Id, data: bytes) returns (ok: bool)
      requires Valid()
      modifies this`blobs, this`nbytes
      ensures Valid() && ok == !closed
      ensures blobs == if closed || id in old(blobs) then old(blobs) else old(blobs)[id := data]
    {
      if closed {
        return false;
      }
      if id in blobs {
        return true;
      }
      SumSet(Lengths(blobs), id, |data|);
      assert Lengths(blobs[id := data]) == Lengths(blobs)[id := |data|];
      blobs := blobs[id := data];
      nbytes := nbytes + |data|;
      return true;
    }

    method Get(id: Id) returns (res: Lookup)
      ensures res == if closed then Closed else if id in blobs then Found(blobs[id]) else NotFound
    {
      if closed {
        return Closed;
      }
      if id !in blobs {
        return NotFound;
      }
      return Found(blobs[id]);
    }

    method Delete(id: Id) returns (ok: bool)
      requires Valid()
      modifies this`blobs, this`nbytes
      ensures Valid() && ok == !closed
      ensures blobs == if closed then old(blobs) else old(blobs) - {id}
    {
      if closed {
        return false;
      }
      if id in blobs {
        SumPick(Lengths(blobs), id);
        assert Lengths(blobs - {id}) == Lengths(blobs) - {id};
        nbytes := nbytes - |blobs[id]|;
        blobs := blobs - {id};
      }
      return true;
    }

    method List() returns (ok: bool, ids: seq<Id>)
      ensures ok == !closed
      ensures ok ==> Lists(ids, blobs.Keys)
    {
      ids := InSomeOrder(blobs.Keys);
      ok := !closed;
    }

    method Bytes() returns (n: int)
      requires Valid()
      ensures n == Sum(Lengths(blobs))
    {
      n := nbytes;
    }

    method Close()
      modifies this`closed
      ensures closed
    {
      closed := true;
    }
  }
}
