/** Putting pieces together again (internal/chunk/assembler.go). */
module Assembling {
  import opened Bytes
  import opened Policy
  import opened Boundary
  import opened Schemes
  import opened Readers
  import opened Splitting

  /** How a write ends: it takes at most so many bytes, and it may report an error. */
  datatype Turn = Turn(takes: nat, failed: bool)

  /** A destination whose next writes end as turns says, and all later ones well. */
  class Sink {
    var out: bytes
    var turns: seq<Turn>

    constructor (turns: seq<Turn>)
      ensures out == [] && this.turns == turns
    {
      out, this.turns := [], turns;
    }

    method Write(data: bytes) returns (n: nat, failed: bool)
      modifies this
      ensures n <= |data| && out == old(out) + data[..n]
      ensures old(turns) == [] ==> turns == [] && n == |data| && !failed
    {
      if turns == [] {
        out := out + data;
        return |data|, false;
      }
      n, failed := if turns[0].takes < |data| then turns[0].takes else |data|, turns[0].failed;
      out, turns := out + data[..n], turns[1..];
    }
  }

  datatype Trouble = Nothing | Gap | WrongIndex | WriteFailed | ShortWrite

  /** Writes the pieces in order, as long as each is the next one, to a destination that takes them. */
  method Assemble(w: Sink, pieces: seq<Piece>) returns (n: nat, err: Trouble)
    modifies w
    ensures n <= |Concat(Datas(pieces))| && w.out == old(w.out) + Concat(Datas(pieces))[..n]
    ensures err == Nothing ==> Numbered(pieces) && n == |Concat(Datas(pieces))|
    ensures old(w.turns) == [] ==> (err == Nothing <==> Numbered(pieces))
    ensures err == Gap || err == WrongIndex ==>
              exists k :: 0 <= k < |pieces| && n == |Concat(Datas(pieces[..k]))|
                          && Numbered(pieces[..k]) && !Numbered(pieces[..k + 1])
                          && (if pieces[k].offset != n % TWO64 then err == Gap else err == WrongIndex)
    ensures old(w.turns) == [] ==> err == Nothing || err == Gap || err == WrongIndex
  {
    hide Concat, Numbered, NextGoes, Datas;
    var want: uint64 := 0;
    n := 0;
    NumberedEmpty();
    assert pieces[..0] == [];
    NoBytes();
    ghost var start := w.out;
    for i := 0 to |pieces|
      invariant NextGoes(pieces[..i], i, want)
      invariant n == |Concat(Datas(pieces[..i]))| && w.out == start + Concat(Datas(pieces[..i]))
      invariant old(w.turns) == [] ==> w.turns == []
    {
      var p := pieces[i];
      PrefixBytes(pieces, i);
      Expected(pieces, i, want);
      Reached(pieces[..i], i, want);
      if p.offset != want {
        return n, Gap;
      }
      if p.index != i {
        return n, WrongIndex;
      }
      NumberedSnoc(pieces[..i], p);
      SoFarNumbered(pieces[..i], i, want);
      var wn, failed := w.Write(p.data);
      n := n + wn;
      assert w.out == start + (Concat(Datas(pieces[..i])) + p.data[..wn]);
      if failed {
        return n, WriteFailed;
      }
      if wn != |p.data| {
        return n, ShortWrite;
      }
      assert p.data[..wn] == p.data;
      want := (want + |p.data|) % TWO64;
    }
    assert pieces[..|pieces|] == pieces;
    SoFarNumbered(pieces, |pieces|, want);
    return n, Nothing;
  }

  lemma Reached(ps: seq<Piece>, index: nat, offset: uint64)
    requires NextGoes(ps, index, offset)
    ensures offset == |Concat(Datas(ps))| % TWO64
  {
  }

  lemma NoBytes()
    ensures Concat(Datas([])) == []
  {
  }

  /** The bytes before a piece, its own, and the ones after. */
  lemma PrefixBytes(pieces: seq<Piece>, i: nat)
    requires i < |pieces|
    ensures var before, all := Concat(Datas(pieces[..i])), Concat(Datas(pieces));
      && pieces[..i + 1] == pieces[..i] + [pieces[i]]
      && Concat(Datas(pieces[..i + 1])) == before + pieces[i].data
      && (before + pieces[i].data) <= all
  {
    var a, b := Datas(pieces[..i + 1]), Datas(pieces[i + 1..]);
    assert pieces[..i + 1] == pieces[..i] + [pieces[i]];
    assert a == Datas(pieces[..i]) + [pieces[i].data];
    assert Datas(pieces) == a + b;
    ConcatSnoc(Datas(pieces[..i]), pieces[i].data);
    ConcatAppend(a, b);
  }

  /** After pieces that are in order, the next one is in order exactly when it is where it goes. */
  lemma Expected(pieces: seq<Piece>, i: nat, want: uint64)
    requires i < |pieces| && NextGoes(pieces[..i], i, want)
    ensures Numbered(pieces[..i])
    ensures (pieces[i].index == i && pieces[i].offset == want) == Numbered(pieces[..i + 1])
    ensures Numbered(pieces) ==> Numbered(pieces[..i + 1])
  {
    var some := pieces[..i + 1];
    assert some[..i] == pieces[..i] && some[i] == pieces[i];
    assert Datas(some)[..i] == Datas(pieces[..i]);
    forall k | 0 <= k <= i
      ensures Datas(some)[..k] == Datas(pieces)[..k]
    {
    }
    if pieces[i].index == i && pieces[i].offset == want {
      NumberedSnoc(pieces[..i], pieces[i]);
      assert some == pieces[..i] + [pieces[i]];
    }
    hide Concat;
  }

  /** Are the indices 0, 1, 2, …? */
  predicate InOrder(pieces: seq<Piece>) {
    forall i :: 0 <= i < |pieces| ==> pieces[i].index == i
  }

  /** One buffer of all the pieces, if their indices are in order; offsets are not looked at. */
  method AssembleBytes(pieces: seq<Piece>) returns (buf: Option<bytes>)
    ensures buf == if InOrder(pieces) then Some(Concat(Datas(pieces))) else None
  {
    hide Concat;
    var b: bytes := [];
    assert pieces[..0] == [];
    NoBytes();
    for i := 0 to |pieces|
      invariant b == Concat(Datas(pieces[..i]))
      invariant InOrder(pieces[..i])
    {
      PrefixBytes(pieces, i);
      if pieces[i].index != i {
        return None;
      }
      b := b + pieces[i].data;
    }
    assert pieces[..|pieces|] == pieces;
    return Some(b);
  }

  /** Takes pieces one at a time. */
  class Writer {
    const w: Sink
    var n: nat
    var index: nat
    var offset: uint64
    ghost var got: seq<Piece>
    ghost var torn: bool
    ghost const before: bytes

    /** got are the pieces accepted; unless a write went wrong, they are all that was written. */
    ghost predicate Valid()
      reads this, w
    {
      && NextGoes(got, index, offset)
      && before <= w.out && n == |w.out| - |before|
      && (!torn ==> w.out == before + Concat(Datas(got)))
    }

    constructor (w: Sink)
      ensures Valid() && got == [] && !torn
      ensures this.w == w && before == w.out
    {
      this.w := w;
      n, index, offset := 0, 0, 0;
      got, torn, before := [], false, w.out;
      new;
      NumberedEmpty();
      NoBytes();
    }

    /** Accepts exactly the piece that comes next, if it can be written. */
    method Append(p: Piece) returns (err: Trouble)
      requires Valid()
      modifies this`n, this`index, this`offset, this`got, this`torn, w
      ensures Valid()
      ensures got == if err == Nothing then old(got) + [p] else old(got)
      ensures old(w.turns) == [] ==> w.turns == [] && (err == Nothing <==> Numbered(old(got) + [p]))
      ensures err == Nothing ==> Numbered(old(got) + [p])
      ensures torn == (old(torn) || err == WriteFailed || err == ShortWrite)
      ensures err == Gap || err == WrongIndex ==> w.out == old(w.out)
      ensures p.index != |old(got)| ==> err == WrongIndex
      ensures err == Gap <==> p.index == |old(got)| && p.offset != |Concat(Datas(old(got)))| % TWO64
      ensures old(w.turns) == [] ==> err == Nothing || err == Gap || err == WrongIndex
    {
      hide Concat, Numbered, NextGoes;
      Expected(got + [p], |got|, offset) by {
        assert (got + [p])[..|got|] == got;
        CountedTo(got, index, offset);
      }
      assert (got + [p])[..|got| + 1] == got + [p];
      CountedTo(got, index, offset);
      Reached(got, index, offset);
      if p.index != index {
        return WrongIndex;
      }
      if p.offset != offset {
        return Gap;
      }
      NumberedSnoc(got, p);
      PrefixBytes(got + [p], |got|);
      var wn, failed := w.Write(p.data);
      n := n + wn;
      if failed {
        torn := true;
        return WriteFailed;
      }
      if wn != |p.data| {
        torn := true;
        return ShortWrite;
      }
      got := got + [p];
      index, offset := index + 1, (offset + |p.data|) % TWO64;
      return Nothing;
    }
  }

  lemma CountedTo(ps: seq<Piece>, index: nat, offset: uint64)
    requires NextGoes(ps, index, offset)
    ensures index == |ps|
  {
  }

  /** What a splitter cuts a whole stream into goes together to the stream again. */
  lemma SplitRejoins(pol: Policy, table: GearTable, s: bytes, pieces: seq<Piece>)
    requires Datas(pieces) == Delivered(pol, table, s, Eof) && Numbered(pieces)
    ensures InOrder(pieces) && Concat(Datas(pieces)) == s
  {
    SplitConcat(pol, table, s);
  }
}
