/** The byte sources a splitter reads from: any fragmentation, any ending. */
module Readers {
  import opened Bytes

  /** The error part of a read: nil, io.EOF, io.ErrUnexpectedEOF, or another error. */
  datatype Status = Ok | Eof | UnexpectedEof | Failed(code: int)

  /** A source that delivers its fragments in order, each in one read or more, and then its ending for
      ever. The ending may already come along with the last bytes. Fragments may be empty. */
  class Reader {
    var pending: seq<bytes>
    const end: Status
    const early: bool

    constructor (fragments: seq<bytes>, end: Status, early: bool)
      ensures pending == fragments && this.end == end && this.early == early
    {
      this.pending := fragments;
      this.end := end;
      this.early := early;
    }

    ghost predicate Valid() {
      end == Eof || end.Failed?
    }

    /** Everything still to be delivered. */
    ghost function Rest(): bytes
      reads this
    {
      Concat(pending)
    }

    ghost function Measure(): nat
      reads this
    {
      |pending| + |Rest()|
    }

    /** One read into a buffer of cap bytes. */
    method Read(cap: nat) returns (data: bytes, st: Status)
      requires Valid() && cap > 0
      modifies this
      ensures old(Rest()) == data + Rest() && |data| <= cap
      ensures st == Ok || st == end
      ensures st != Ok ==> Rest() == []
      ensures st == Ok ==> Measure() < old(Measure())
    {
      if pending == [] {
        return [], end;
      }
      var f := pending[0];
      if |f| > cap {
        data, st := f[..cap], Ok;
        pending := [f[cap..]] + pending[1..];
        assert pending[1..] == old(pending)[1..];
        assert f == f[..cap] + f[cap..];
      } else {
        data := f;
        pending := pending[1..];
        st := if pending == [] && early then end else Ok;
      }
    }

    /** io.ReadFull: n bytes, or what there is and why no more. */
    method ReadFull(n: nat) returns (data: bytes, st: Status)
      requires Valid() && n > 0
      modifies this
      ensures old(Rest()) == data + Rest()
      ensures |data| == if |old(Rest())| < n then |old(Rest())| else n
      ensures |data| == n ==> st == Ok
      ensures |data| < n ==> Rest() == [] && st == if end == Eof && |data| > 0 then UnexpectedEof else end
    {
      data, st := [], Ok;
      while |data| < n && st == Ok
        invariant old(Rest()) == data + Rest() && |data| <= n
        invariant st == Ok || (st == end && Rest() == [])
        decreases st == Ok, Measure()
      {
        var more;
        more, st := Read(n - |data|);
        data := data + more;
      }
      if |data| == n {
        st := Ok;
      } else if |data| > 0 && st == Eof {
        st := UnexpectedEof;
      }
    }
  }
}
