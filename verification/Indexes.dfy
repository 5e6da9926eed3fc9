/** The object index (internal/index/index.go). */
module Indexes {
  import opened Bytes
  import opened Sums
  import opened Schemes
  import opened Backends

  datatype Record = Record(id: Id, useCount: uint32, size: uint64, chunks: uint32)

  ghost function Sizes(objects: map<Id, Record>): map<Id, nat> {
    map o | o in objects :: objects[o].size
  }

  class Index {
    var objects: map<Id, Record>

    constructor ()
      ensures objects == map[]
    {
      objects := map[];
    }

    method Get(id: Id) returns (r: Option<Record>)
      ensures r == if id in objects then Some(objects[id]) else None
    {
      r := if id in objects then Some(objects[id]) else None;
    }

    method Put(r: Record)
      modifies this
      ensures objects == old(objects)[r.id := r]
    {
      objects := objects[r.id := r];
    }

    method Delete(id: Id)
      modifies this
      ensures objects == old(objects) - {id}
    {
      objects := objects - {id};
    }

    method List() returns (ids: seq<Id>)
      ensures Lists(ids, objects.Keys)
    {
      ids := InSomeOrder(objects.Keys);
    }

    /** Logical bytes: every object once, however often it was put (modulo 2^64). */
    method TotalBytes() returns (n: uint64)
      ensures n == Sum(Sizes(objects)) % TWO64
    {
      var todo := objects.Keys;
      n := 0;
      assert objects - todo == map[];
      while todo != {}
        invariant todo <= objects.Keys && n == Sum(Sizes(objects - todo)) % TWO64
      {
        var o :| o in todo;
        OneMore(objects, todo, o);
        WrapAdd(Sum(Sizes(objects - todo)), objects[o].size);
        n := (n + objects[o].size) % TWO64;
        todo := todo - {o};
      }
      assert objects - todo == objects;
    }
  }

  lemma OneMore(objects: map<Id, Record>, todo: set<Id>, o: Id)
    requires o in todo && o in objects
    ensures Sum(Sizes(objects - (todo - {o}))) == Sum(Sizes(objects - todo)) + objects[o].size
  {
    assert Sizes(objects - (todo - {o})) == Sizes(objects - todo)[o := objects[o].size];
    SumSet(Sizes(objects - todo), o, objects[o].size);
  }
}
