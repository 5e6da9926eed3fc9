/** The streaming splitter (internal/chunk/splitter.go): whatever way the bytes arrive, it delivers
    the pieces of the pure split of the whole stream. */
module Splitting {
  import opened Bytes
  import opened Policy
  import opened Boundary
  import opened Readers
  import opened Gears

  datatype Piece = Piece(index: nat, offset: uint64, data: bytes)

  /** What Next returns: a piece, or an error. */
  datatype NextResult = Got(piece: Piece) | Done(why: Status)

  const BUFFER: nat := 0x8000

  function Datas(ps: seq<Piece>): (ds: seq<bytes>)
    ensures |ds| == |ps| && forall i :: 0 <= i < |ps| ==> ds[i] == ps[i].data
  {
    seq(|ps|, i requires 0 <= i < |ps| => ps[i].data)
  }

  /** Indices count up from 0 and offsets are contiguous (modulo 2^64). */
  ghost predicate Numbered(ps: seq<Piece>) {
    forall i :: 0 <= i < |ps| ==>
      ps[i].index == i && ps[i].offset == |Concat(Datas(ps)[..i])| % TWO64
  }

  /** The pieces a stream that breaks off after s has yielded by then: those that end at a boundary. */
  function CutPieces(pol: Policy, table: GearTable, s: bytes): seq<bytes>
    decreases |s|
  {
    var k := FirstCut(pol, table, s);
    if k == 0 then [] else [s[..k]] + CutPieces(pol, table, s[k..])
  }

  /** They are the split of s without its last piece, if that is one without a boundary. */
  lemma {:induction false} CutPiecesExact(pol: Policy, table: GearTable, s: bytes) returns (tail: bytes)
    ensures Concat(CutPieces(pol, table, s)) + tail == s && NoCut(pol, table, tail)
    ensures Split(pol, table, s) == CutPieces(pol, table, s) + if tail == [] then [] else [tail]
    ensures forall p :: p in CutPieces(pol, table, s) ==> TruePiece(pol, table, p)
    decreases |s|
  {
    hide CutAt, FirstCut, TruePiece, Split, CutPieces, Concat;
    CutPiecesStep(pol, table, s);
    var k := FirstCut(pol, table, s);
    if k == 0 {
      return s;
    }
    tail := CutPiecesExact(pol, table, s[k..]);
    var rest := CutPieces(pol, table, s[k..]);
    ConcatCons(s[..k], rest);
    assert s == s[..k] + s[k..] == s[..k] + (Concat(rest) + tail);
    assert forall p :: p in [s[..k]] + rest ==> p == s[..k] || p in rest;
  }

  /** The first piece and what follows it. */
  lemma CutPiecesStep(pol: Policy, table: GearTable, s: bytes)
    ensures FirstCut(pol, table, s) == 0 ==>
              && CutPieces(pol, table, s) == []
              && Concat([]) == []
              && Split(pol, table, s) == (if s == [] then [] else [s])
              && NoCut(pol, table, s)
    ensures var k := FirstCut(pol, table, s);
            0 < k ==>
              && k <= |s|
              && CutPieces(pol, table, s) == [s[..k]] + CutPieces(pol, table, s[k..])
              && Split(pol, table, s) == [s[..k]] + Split(pol, table, s[k..])
              && TruePiece(pol, table, s[..k])
  {
    hide CutAt, FirstCut, TruePiece;
    NoPieces();
    if 0 < FirstCut(pol, table, s) {
      TruePieceOfCut(pol, table, s);
    }
  }

  /** What a stream that ends with end is to be cut into. */
  function Delivered(pol: Policy, table: GearTable, s: bytes, end: Status): seq<bytes> {
    if end == Eof then Split(pol, table, s) else CutPieces(pol, table, s)
  }

  class Splitter {
    const r: Reader
    const pol: Policy
    const gear: Gear
    var carry: bytes
    var offset: uint64
    var index: nat
    var eof: bool
    var err: Status

    ghost predicate Valid()
      reads this, gear
    {
      && r.Valid()
      && gear.Valid() && gear.pol == AsCdc(pol)
      && (eof ==> r.end == Eof)
      && (err != Ok ==> err == r.end)
      && (pol.mode == Fixed ==> carry == [])
    }

    /** The part of the stream not delivered yet. */
    ghost function Rest(): bytes
      reads this, r
    {
      carry + r.Rest()
    }

    /** Nothing is left behind once the end has been seen. */
    ghost predicate Drained()
      reads this, r
    {
      eof || err != Ok ==> Rest() == []
    }

    constructor (r: Reader, raw: RawPolicy, table: GearTable)
      requires r.Valid()
      ensures Valid() && Drained() && fresh(gear)
      ensures this.r == r && pol == Normalize(raw) && gear.table == table
      ensures Rest() == r.Rest() && index == 0 && offset == 0 && err == Ok && !eof
    {
      this.r := r;
      pol := Normalize(raw);
      gear := new Gear(raw, table);
      carry, offset, index, eof, err := [], 0, 0, false, Ok;
    }

    /** The piece data, numbered and placed. */
    method Emit(data: bytes) returns (res: NextResult)
      modifies this`offset, this`index
      ensures res == Got(Piece(old(index), old(offset), data))
      ensures index == old(index) + 1 && offset == (old(offset) + |data|) % TWO64
    {
      res := Got(Piece(index, offset, data));
      offset := (offset + |data|) % TWO64;
      index := index + 1;
    }

    /** What one call of Next has to do with the undelivered stream s. */
    ghost predicate Delivers(s: bytes, res: NextResult)
      reads this, r
    {
      var k := FirstCut(pol, gear.table, s);
      if k > 0 then res.Got? && res.piece.data == s[..k] && Rest() == s[k..]
      else if r.end == Eof && s != [] then res.Got? && res.piece.data == s && Rest() == []
      else res == Done(r.end) && Rest() == [] && err == r.end
    }

    twostate predicate Counts(res: NextResult)
      reads this
    {
      if res.Got? then
        && res.piece.index == old(index) && res.piece.offset == old(offset)
        && index == old(index) + 1 && offset == (old(offset) + |res.piece.data|) % TWO64
        && err == old(err)
      else
        index == old(index) && offset == old(offset)
    }

    method Next() returns (res: NextResult)
      requires Valid() && Drained()
      modifies this, r, gear
      ensures Valid() && Drained() && Counts(res)
      ensures old(err) != Ok ==> res == Done(old(err)) && Rest() == [] && err == old(err)
      ensures old(err) == Ok ==> Delivers(old(Rest()), res)
    {
      if err != Ok {
        return Done(err);
      }
      if eof {
        err := Eof;
        return Done(Eof);
      }
      if pol.mode == Cdc {
        res := NextCdc();
      } else {
        res := NextFixed();
      }
    }

    method NextFixed() returns (res: NextResult)
      requires Valid() && Drained() && !eof && err == Ok && pol.mode == Fixed
      modifies this, r
      ensures Valid() && Drained() && Counts(res)
      ensures Delivers(old(Rest()), res)
    {
      ghost var all := Rest();
      FixedCut(all);
      var data, st := r.ReadFull(pol.avg);
      if |data| == 0 && (st == Eof || st == UnexpectedEof) {
        eof, err := true, Eof;
        return Done(Eof);
      }
      if st != Ok && st != UnexpectedEof && st != Eof {
        err := st;
        return Done(st);
      }
      res := Emit(data);
      if st == Eof || st == UnexpectedEof || |data| < pol.avg {
        eof := true;
      }
    }

    lemma FixedCut(s: bytes)
      requires pol.mode == Fixed
      ensures FirstCut(pol, gear.table, s) == if |s| < pol.avg then 0 else pol.avg
    {
      CutSize(pol, gear.table, s);
      if |s| >= pol.avg {
        assert CutAt(pol, gear.table, s, pol.avg);
      }
    }

    /** The gear has read the prefix s[..n] and found no boundary in it. */
    ghost predicate Scanned(s: bytes, n: nat)
      reads gear
    {
      && n <= |s| && gear.fed == s[..n]
      && forall j :: 1 <= j <= n ==> !CutAt(pol, gear.table, s, j)
    }

    /** Feeds the next byte of s to the gear; stop is whether s is cut there. */
    method Feed(ghost s: bytes, ghost n: nat, b: byte) returns (stop: bool)
      requires gear.Valid() && gear.pol == pol
      requires Scanned(s, n) && n < |s| && b == s[n]
      modifies gear
      ensures gear.Valid()
      ensures stop ==> IsFirstCut(pol, gear.table, s, n + 1) && FirstCut(pol, gear.table, s) == n + 1
      ensures !stop ==> Scanned(s, n + 1)
    {
      stop := gear.Push(b);
      assert gear.fed == s[..n + 1];
      assert s == s[..n + 1] + s[n + 1..];
      CutAtPrefix(pol, gear.table, s[..n + 1], s[n + 1..], n + 1);
      if stop {
        FirstCutUnique(pol, gear.table, s, n + 1);
      }
    }

    method NextCdc() returns (res: NextResult)
      requires Valid() && Drained() && !eof && err == Ok && pol.mode == Cdc
      modifies this, r, gear
      ensures Valid() && Drained() && Counts(res)
      ensures Delivers(old(Rest()), res)
    {
      hide CutAt, FirstCut, IsFirstCut, Delivers, Gear.Valid, Reader.Valid;
      ghost var all := Rest();
      gear.Reset();
      var buf := carry;
      carry := [];
      for i := 0 to |buf|
        invariant Valid() && !eof && err == Ok && index == old(index) && offset == old(offset)
        invariant carry == [] && all == buf + r.Rest() && Scanned(all, i)
      {
        var stop := Feed(all, i, buf[i]);
        if stop {
          CutsIn(buf, r.Rest(), i + 1);
          carry := buf[i + 1..];
          res := Emit(buf[..i + 1]);
          CutDelivers(all, i + 1, res);
          return;
        }
      }
      res := ReadOn(all, buf);
    }

    lemma CutDelivers(s: bytes, k: nat, res: NextResult)
      requires 0 < k <= |s| && FirstCut(pol, gear.table, s) == k
      requires res.Got? && res.piece.data == s[..k] && Rest() == s[k..]
      ensures Delivers(s, res)
    {
      hide FirstCut;
    }

    /** The second half: the carried bytes held no boundary, so read on. */
    method ReadOn(ghost all: bytes, carried: bytes) returns (res: NextResult)
      requires Valid() && !eof && err == Ok && pol.mode == Cdc && carry == []
      requires all == carried + r.Rest() && Scanned(all, |carried|)
      modifies this, r, gear
      ensures Valid() && Drained() && Counts(res)
      ensures Delivers(all, res)
    {
      hide CutAt, FirstCut, Scanned, Delivers;
      var buf, finished := carried, false;
      res := Done(Ok);
      while !finished
        invariant Valid() && (finished ==> Drained() && Counts(res) && Delivers(all, res))
        invariant !finished ==> !eof && err == Ok && carry == []
        invariant !finished ==> index == old(index) && offset == old(offset)
        invariant !finished ==> all == buf + r.Rest() && Scanned(all, |buf|)
        decreases !finished, r.Measure()
      {
        if eof {
          assert false;   // Next never gets here once the end has been seen
        }
        buf, finished, res := ReadOnce(all, buf);
      }
    }

    /** One read, and what follows from it. */
    method ReadOnce(ghost all: bytes, before: bytes) returns (buf: bytes, finished: bool, res: NextResult)
      requires Valid() && !eof && err == Ok && pol.mode == Cdc && carry == []
      requires all == before + r.Rest() && Scanned(all, |before|)
      modifies this, r, gear
      ensures Valid() && (finished ==> Drained() && Counts(res) && Delivers(all, res))
      ensures !finished ==> !eof && err == Ok && carry == [] && index == old(index) && offset == old(offset)
      ensures !finished ==> all == buf + r.Rest() && Scanned(all, |buf|) && r.Measure() < old(r.Measure())
    {
      hide CutAt, FirstCut;
      res := Done(Ok);
      var tmp, st := r.Read(BUFFER);
      buf, finished := Consume(all, before, tmp, st);
      if finished {
        res := Emit(buf);
      } else if st != Ok {
        assert all == buf && all[..|all|] == all;
        finished := true;
        res := AtEnd(all, buf, st);
      }
    }

    /** The reader has ended: what was read since the last boundary is the last piece, or is dropped
        with the reader's error. */
    method AtEnd(ghost all: bytes, buf: bytes, st: Status) returns (res: NextResult)
      requires Valid() && !eof && err == Ok && carry == [] && st != Ok && st == r.end
      requires all == buf && r.Rest() == [] && Scanned(all, |all|)
      modifies this
      ensures Valid() && Drained() && Counts(res)
      ensures Delivers(all, res)
    {
      hide CutAt, FirstCut;
      NothingFound(all);
      if st == Eof {
        eof := true;
        if |buf| == 0 {
          err := Eof;
          return Done(Eof);
        }
        res := Emit(buf);
        return;
      }
      err := st;
      return Done(st);
    }

    /** A call of Next takes one piece off what is to be delivered, or reports that there is none. */
    lemma OneStep(s: bytes, res: NextResult)
      requires Valid() && Delivers(s, res)
      ensures res.Got? ==>
        && Delivered(pol, gear.table, s, r.end) == [res.piece.data] + Delivered(pol, gear.table, Rest(), r.end)
        && |Rest()| < |s|
      ensures res.Done? ==> res.why == r.end && Delivered(pol, gear.table, s, r.end) == []
    {
      DeliveredStep(pol, gear.table, s, r.end);
      DeliveredStep(pol, gear.table, [], r.end);
    }

    lemma NothingFound(s: bytes)
      requires Scanned(s, |s|)
      ensures FirstCut(pol, gear.table, s) == 0
    {
    }

    /** Keeps what was read beyond a boundary; if that is nothing at the end of the stream, that was all. */
    method CarryOver(beyond: bytes, st: Status)
      requires Valid() && !eof && err == Ok && pol.mode == Cdc && (st == Ok || (st == r.end && r.Rest() == []))
      modifies this`carry, this`eof
      ensures Valid() && carry == beyond && (eof ==> carry == [] && r.Rest() == [])
    {
      hide Gear.Valid, Reader.Valid;
      carry := beyond;
      if st == Eof && |carry| == 0 {
        eof := true;
      }
    }

    /** Takes over byte i of those just read. */
    method ConsumeOne(ghost all: bytes, ghost before: bytes, tmp: bytes, i: nat, buf: bytes)
      returns (buf': bytes, stop: bool)
      requires gear.Valid() && gear.pol == pol && i < |tmp|
      requires all == before + tmp + r.Rest() && buf == before + tmp[..i] && Scanned(all, |buf|)
      modifies gear
      ensures gear.Valid() && buf' == before + tmp[..i + 1]
      ensures stop ==> FirstCut(pol, gear.table, all) == |buf'| > 0
      ensures stop ==> all[..|buf'|] == buf' && all[|buf'|..] == tmp[i + 1..] + r.Rest()
      ensures !stop ==> Scanned(all, |buf'|)
    {
      hide CutAt, FirstCut, IsFirstCut, Scanned, Gear.Valid, Reader.Valid;
      CutsAt(before, tmp, r.Rest(), i);
      stop := Feed(all, |buf|, tmp[i]);
      buf' := buf + [tmp[i]];
    }

    /** Takes over the bytes just read, up to the first boundary; the rest is carried over. */
    method Consume(ghost all: bytes, before: bytes, tmp: bytes, st: Status) returns (buf: bytes, stop: bool)
      requires Valid() && !eof && err == Ok && pol.mode == Cdc && carry == []
      requires all == before + tmp + r.Rest() && Scanned(all, |before|)
      requires st == Ok || (st == r.end && r.Rest() == [])
      modifies this`carry, this`eof, gear
      ensures Valid() && (eof ==> carry == [] && r.Rest() == [])
      ensures all == buf + carry + r.Rest()
      ensures stop ==> FirstCut(pol, gear.table, all) == |buf| > 0
      ensures stop ==> all[..|buf|] == buf && all[|buf|..] == carry + r.Rest()
      ensures !stop ==> !eof && carry == [] && buf == before + tmp && Scanned(all, |buf|)
    {
      hide CutAt, FirstCut, IsFirstCut, Scanned, Gear.Valid, Reader.Valid;
      buf := before;
      for i := 0 to |tmp|
        invariant Valid() && !eof && carry == []
        invariant buf == before + tmp[..i] && Scanned(all, |buf|)
      {
        buf, stop := ConsumeOne(all, before, tmp, i, buf);
        if stop {
          CarryOver(tmp[i + 1..], st);
          return;
        }
      }
      stop := false;
    }
  }

  lemma CutsIn(buf: bytes, rest: bytes, k: nat)
    requires k <= |buf|
    ensures (buf + rest)[..k] == buf[..k] && (buf + rest)[k..] == buf[k..] + rest
  {
  }

  lemma CutsAt(before: bytes, tmp: bytes, rest: bytes, i: nat)
    requires i < |tmp|
    ensures var all, buf := before + tmp + rest, before + tmp[..i] + [tmp[i]];
      && all[|buf| - 1] == tmp[i] && buf == before + tmp[..i + 1]
      && all[..|buf|] == buf && all[|buf|..] == tmp[i + 1..] + rest
  {
  }

  /** One step of the pure split and of its broken-off variant. */
  lemma DeliveredStep(pol: Policy, table: GearTable, s: bytes, end: Status)
    ensures var k := FirstCut(pol, table, s);
      Delivered(pol, table, s, end)
        == if k > 0 then [s[..k]] + Delivered(pol, table, s[k..], end)
           else if end == Eof && s != [] then [s] else []
  {
  }

  /** The pieces so far are numbered, and (index, offset) is where the next one goes. */
  ghost predicate NextGoes(ps: seq<Piece>, index: nat, offset: uint64) {
    Numbered(ps) && index == |ps| && offset == |Concat(Datas(ps))| % TWO64
  }

  lemma NumberedEmpty()
    ensures NextGoes([], 0, 0) && Datas([]) == []
  {
    assert |Concat(Datas([]))| == 0;
  }

  lemma SoFarNumbered(ps: seq<Piece>, index: nat, offset: uint64)
    requires NextGoes(ps, index, offset)
    ensures Numbered(ps)
  {
  }

  lemma NumberedSnoc(ps: seq<Piece>, p: Piece)
    requires NextGoes(ps, p.index, p.offset)
    ensures Datas(ps + [p]) == Datas(ps) + [p.data]
    ensures NextGoes(ps + [p], p.index + 1, (p.offset + |p.data|) % TWO64)
  {
    ConcatSnoc(Datas(ps), p.data);
    WrapAdd(|Concat(Datas(ps))|, |p.data|);
    var ds, ds' := Datas(ps), Datas(ps + [p]);
    assert ds' == ds + [p.data];
    assert ds'[..|ps|] == ds;
    forall i | 0 <= i < |ps|
      ensures ds'[..i] == ds[..i]
    {
    }
  }

  /** One round of SplitAll's loop. */
  method Collect(sp: Splitter, out: seq<Piece>) returns (out': seq<Piece>, res: NextResult)
    requires sp.Valid() && sp.Drained() && sp.err == Ok && NextGoes(out, sp.index, sp.offset)
    modifies sp, sp.r, sp.gear
    ensures sp.Valid() && sp.Drained()
    ensures res.Got? ==>
      && sp.err == Ok && NextGoes(out', sp.index, sp.offset) && |sp.Rest()| < |old(sp.Rest())|
      && Datas(out') + Delivered(sp.pol, sp.gear.table, sp.Rest(), sp.r.end)
         == Datas(out) + Delivered(sp.pol, sp.gear.table, old(sp.Rest()), sp.r.end)
    ensures res.Done? ==>
      && res.why == sp.r.end && out' == out && Numbered(out)
      && Delivered(sp.pol, sp.gear.table, old(sp.Rest()), sp.r.end) == []
  {
    hide CutAt, FirstCut, Delivered, Numbered, NextGoes, Concat;
    ghost var s := sp.Rest();
    res := sp.Next();
    sp.OneStep(s, res);
    if res.Done? {
      SoFarNumbered(out, sp.index, sp.offset);
      return out, res;
    }
    NumberedSnoc(out, res.piece);
    out' := out + [res.piece];
  }

  /** Splits a whole stream. However the reader fragments it, the pieces are those of the pure split,
      in order, numbered and contiguous; a stream that fails yields the error and the pieces cut by then. */
  method SplitAll(r: Reader, raw: RawPolicy, table: GearTable) returns (out: seq<Piece>, st: Status)
    requires r.Valid()
    modifies r
    ensures Datas(out) == Delivered(Normalize(raw), table, old(r.Rest()), r.end)
    ensures Numbered(out)
    ensures st == if r.end == Eof then Ok else r.end
  {
    var sp := new Splitter(r, raw, table);
    ghost var all, pol := r.Rest(), sp.pol;
    out := [];
    NumberedEmpty();
    hide Normalize, CutAt, FirstCut, Delivered, Numbered, NextGoes, Concat;
    while true
      invariant sp.Valid() && sp.Drained() && sp.r == r && sp.err == Ok && fresh(sp) && fresh(sp.gear)
      invariant Datas(out) + Delivered(pol, table, sp.Rest(), r.end) == Delivered(pol, table, all, r.end)
      invariant NextGoes(out, sp.index, sp.offset)
      decreases |sp.Rest()|
    {
      var res;
      out, res := Collect(sp, out);
      if res.Done? {
        if res.why == Eof {
          return out, Ok;
        }
        return out, res.why;
      }
    }
  }
}
