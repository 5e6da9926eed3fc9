/** Where a byte stream is cut: the rolling Gear value, the cut test, and the pure split of a
    whole stream that the streaming splitter must reproduce (internal/chunk/cdc.go). */
module Boundary {
  import opened Bytes
  import opened Policy

  /** The 256 Gear constants. Nothing proved here depends on their values. */
  type GearTable = t: seq<uint64> | |t| == 256 witness seq(256, _ => 0)

  /** One rolling step: shift left by one bit and add, in 64-bit arithmetic. */
  function Roll(table: GearTable, h: uint64, b: byte): uint64 {
    (2 * h + table[b]) % TWO64
  }

  /** The rolling value after the bytes s, from a reset Gear. */
  function Rolled(table: GearTable, s: bytes): uint64
  {
    if s == [] then 0 else Roll(table, Rolled(table, s[..|s| - 1]), s[|s| - 1])
  }

  // ---- Gear locality ----

  /** The rolling sum without the 64-bit reduction. */
  ghost function Unreduced(table: GearTable, s: bytes): nat
  {
    if s == [] then 0 else 2 * Unreduced(table, s[..|s| - 1]) + table[s[|s| - 1]]
  }

  lemma {:induction false} RolledIsUnreduced(table: GearTable, s: bytes)
    ensures Rolled(table, s) == Unreduced(table, s) % TWO64
  {
    if s != [] {
      var u, t := Unreduced(table, s[..|s| - 1]), table[s[|s| - 1]];
      RolledIsUnreduced(table, s[..|s| - 1]);
      var q := u / TWO64;
      assert u == TWO64 * q + u % TWO64;
      var w := 2 * (u % TWO64) + t;
      ModUnique(2 * u + t, TWO64, 2 * q + w / TWO64, w % TWO64);
    }
  }

  /** The same sum from the front, term by term: byte i of s weighs 2 to the number of bytes behind it. */
  ghost function Weighted(table: GearTable, s: bytes): nat
  {
    if s == [] then 0 else table[s[0]] * Pow2(|s| - 1) + Weighted(table, s[1..])
  }

  lemma {:induction false} UnreducedIsWeighted(table: GearTable, s: bytes)
    ensures Unreduced(table, s) == Weighted(table, s)
  {
    if s != [] {
      UnreducedIsWeighted(table, s[1..]);
      UnreducedAppend(table, s[..1], s[1..]);
      UnreducedOne(table, s[..1]);
      assert s == s[..1] + s[1..];
    }
  }

  lemma UnreducedOne(table: GearTable, s: bytes)
    requires |s| == 1
    ensures Unreduced(table, s) == table[s[0]]
  {
    assert s[..0] == [];
    assert Unreduced(table, []) == 0;
  }

  lemma Double(u: int, p: int)
    ensures u * (2 * p) == 2 * (u * p)
  {
  }

  lemma {:induction false} UnreducedAppend(table: GearTable, a: bytes, b: bytes)
    ensures Unreduced(table, a + b) == Unreduced(table, a) * Pow2(|b|) + Unreduced(table, b)
    decreases |b|
  {
    if b == [] {
      assert a + b == a;
    } else {
      var b' := b[..|b| - 1];
      UnreducedAppend(table, a, b');
      assert (a + b)[..|a + b| - 1] == a + b';
      Double(Unreduced(table, a), Pow2(|b'|));
    }
  }

  lemma DropMultiple(u: int, v: int, w: int, m: int)
    requires m > 0
    ensures (u * (m * v) + w) % m == w % m
  {
    assert u * (m * v) == m * (u * v);
    assert m * (u * v) + m * (w / m) == m * (u * v + w / m);
    ModUnique(m * (u * v) + w, m, u * v + w / m, w % m);
  }

  lemma RolledModulo(table: GearTable, s: bytes, k: nat)
    requires k <= 64
    ensures Rolled(table, s) % Pow2(k) == Unreduced(table, s) % Pow2(k)
  {
    RolledIsUnreduced(table, s);
    Pow2Add(k, 64 - k);
    Pow2At64();
    ModOfMod(Unreduced(table, s), Pow2(k), Pow2(64 - k));
  }

  /** Modulo 2^k the rolling value depends on the last k bytes only: whatever came before b is forgotten. */
  lemma GearLocality(table: GearTable, a: bytes, b: bytes, k: nat)
    requires k <= |b| && k <= 64
    ensures Rolled(table, a + b) % Pow2(k) == Rolled(table, b) % Pow2(k)
  {
    RolledModulo(table, a + b, k);
    RolledModulo(table, b, k);
    UnreducedAppend(table, a, b);
    Pow2Add(k, |b| - k);
    DropMultiple(Unreduced(table, a), Pow2(|b| - k), Unreduced(table, b), Pow2(k));
  }

  /** The window is 64 bytes: with that many bytes since, the rolling value itself has forgotten the rest. */
  lemma GearWindow(table: GearTable, a: bytes, b: bytes)
    requires |b| >= 64
    ensures Rolled(table, a + b) == Rolled(table, b)
  {
    hide Rolled;
    GearLocality(table, a, b, 64);
    WholeWord(Rolled(table, a + b));
    WholeWord(Rolled(table, b));
  }

  lemma WholeWord(x: uint64)
    ensures x % Pow2(64) == x
  {
    Pow2At64();
  }

  // ---- The cut test ----

  /** Is the stream s, restarted at its beginning, to be cut after its first k bytes? */
  predicate CutAt(pol: Policy, table: GearTable, s: bytes, k: nat)
    requires k <= |s|
  {
    match pol.mode
    case Fixed => k == pol.avg
    case Cdc => k >= pol.min && (k >= pol.max || And(Rolled(table, s[..k]), Mask(pol)) == 0)
  }

  ghost predicate IsFirstCut(pol: Policy, table: GearTable, s: bytes, k: nat) {
    && 1 <= k <= |s|
    && CutAt(pol, table, s, k)
    && forall j :: 1 <= j < k ==> !CutAt(pol, table, s, j)
  }

  ghost predicate NoCut(pol: Policy, table: GearTable, s: bytes) {
    forall j :: 1 <= j <= |s| ==> !CutAt(pol, table, s, j)
  }

  function CutFrom(pol: Policy, table: GearTable, s: bytes, k: nat): (r: nat)
    requires 1 <= k
    ensures r == 0 || k <= r <= |s|
    ensures r != 0 ==> CutAt(pol, table, s, r) && forall j :: k <= j < r ==> !CutAt(pol, table, s, j)
    ensures r == 0 ==> forall j :: k <= j <= |s| ==> !CutAt(pol, table, s, j)
    decreases |s| + 1 - k
  {
    if k > |s| then 0
    else if CutAt(pol, table, s, k) then k
    else CutFrom(pol, table, s, k + 1)
  }

  /** Length of the first piece of s, or 0 when no boundary falls inside s. */
  function FirstCut(pol: Policy, table: GearTable, s: bytes): (r: nat)
    ensures r == 0 <==> NoCut(pol, table, s)
    ensures r != 0 <==> IsFirstCut(pol, table, s, r)
  {
    CutFrom(pol, table, s, 1)
  }

  lemma FirstCutUnique(pol: Policy, table: GearTable, s: bytes, k: nat)
    requires IsFirstCut(pol, table, s, k)
    ensures FirstCut(pol, table, s) == k
  {
    var r := FirstCut(pol, table, s);
    assert CutAt(pol, table, s, k);
  }

  /** The cut test after k bytes looks at those k bytes only. */
  lemma CutAtPrefix(pol: Policy, table: GearTable, a: bytes, b: bytes, k: nat)
    requires k <= |a|
    ensures CutAt(pol, table, a + b, k) == CutAt(pol, table, a, k)
  {
    assert (a + b)[..k] == a[..k];
  }

  lemma FirstCutPrefix(pol: Policy, table: GearTable, a: bytes, b: bytes)
    requires FirstCut(pol, table, a) != 0
    ensures FirstCut(pol, table, a + b) == FirstCut(pol, table, a)
  {
    var k := FirstCut(pol, table, a);
    forall j: nat | j <= |a|
      ensures CutAt(pol, table, a + b, j) == CutAt(pol, table, a, j)
    {
      CutAtPrefix(pol, table, a, b, j);
    }
    FirstCutUnique(pol, table, a + b, k);
  }

  /** Between min and max the decision to cut is made by the last MaskBits bytes alone. */
  lemma CutIsLocal(pol: Policy, table: GearTable, a: bytes, a': bytes, b: bytes)
    requires pol.mode == Cdc
    requires |b| >= MaskBits(pol)
    requires pol.min <= |a + b| < pol.max && pol.min <= |a' + b| < pol.max
    ensures CutAt(pol, table, a + b, |a + b|) <==> CutAt(pol, table, a' + b, |a' + b|)
  {
    var k := MaskBits(pol);
    MaskOfPolicy(pol);
    assert (a + b)[..|a + b|] == a + b && (a' + b)[..|a' + b|] == a' + b;
    AndOnes(Rolled(table, a + b), k);
    AndOnes(Rolled(table, a' + b), k);
    GearLocality(table, a, b, k);
    GearLocality(table, a', b, k);
  }

  /** The hash test, between min and max: s is cut after k bytes exactly if the low MaskBits bits of its
      weighted sum are all zero. Below min it is not cut, from max on it is. */
  lemma CutExact(pol: Policy, table: GearTable, s: bytes, k: nat)
    requires pol.mode == Cdc && k <= |s|
    ensures k < pol.min ==> !CutAt(pol, table, s, k)
    ensures k >= pol.max ==> CutAt(pol, table, s, k)
    ensures pol.min <= k < pol.max ==>
              (CutAt(pol, table, s, k) <==> Weighted(table, s[..k]) % Pow2(MaskBits(pol)) == 0)
  {
    MaskOfPolicy(pol);
    AndOnes(Rolled(table, s[..k]), MaskBits(pol));
    RolledModulo(table, s[..k], MaskBits(pol));
    UnreducedIsWeighted(table, s[..k]);
  }

  /** and the last MaskBits bytes are enough to tell. */
  lemma CutByWindow(pol: Policy, table: GearTable, s: bytes, k: nat)
    requires pol.mode == Cdc && k <= |s| && pol.min <= k < pol.max && MaskBits(pol) <= k
    ensures var n := MaskBits(pol);
      CutAt(pol, table, s, k) <==> Weighted(table, s[k - n..k]) % Pow2(n) == 0
  {
    var n := MaskBits(pol);
    CutExact(pol, table, s, k);
    MaskOfPolicy(pol);
    assert s[..k] == s[..k - n] + s[k - n..k];
    GearLocality(table, s[..k - n], s[k - n..k], n);
    RolledModulo(table, s[..k], n);
    RolledModulo(table, s[k - n..k], n);
    UnreducedIsWeighted(table, s[..k]);
    UnreducedIsWeighted(table, s[k - n..k]);
  }

  /** Do the bytes s end a piece by the hash test? The low MaskBits bits of their weighted sum are zero. */
  ghost predicate ZeroBits(pol: Policy, table: GearTable, s: bytes) {
    Weighted(table, s) % Pow2(MaskBits(pol)) == 0
  }

  /** Where content-defined splitting cuts first: after the least number of bytes, from min on, whose sum ends
      in MaskBits zero bits, or after max; nowhere if the stream ends before. */
  lemma FirstCutExact(pol: Policy, table: GearTable, s: bytes)
    requires pol.mode == Cdc
    ensures var r := FirstCut(pol, table, s);
      && (if r == 0 then |s| < pol.max else pol.min <= r <= pol.max && r <= |s|)
      && (r != 0 ==> r == pol.max || ZeroBits(pol, table, s[..r]))
      && (forall j :: pol.min <= j <= |s| && (r == 0 || j < r) ==> !ZeroBits(pol, table, s[..j]))
  {
    hide CutAt, Weighted, MaskBits;
    var r := FirstCut(pol, table, s);
    if r != 0 {
      CutExact(pol, table, s, r);
    }
    if |s| >= pol.max {
      CutExact(pol, table, s, pol.max);
    }
    forall j | pol.min <= j <= |s| && (r == 0 || j < r)
      ensures !ZeroBits(pol, table, s[..j])
    {
      CutExact(pol, table, s, j);
    }
  }

  // ---- The pure split ----

  /** Cut at the first boundary and restart; the tail without a boundary is the last piece. */
  function Split(pol: Policy, table: GearTable, s: bytes): (ps: seq<bytes>)
    ensures s == [] <==> ps == []
    ensures |ps| <= |s|
  {
    if s == [] then []
    else
      var k := FirstCut(pol, table, s);
      if k == 0 then [s] else [s[..k]] + Split(pol, table, s[k..])
  }

  /** The pieces are the stream: nothing lost, repeated or reordered. */
  lemma {:induction false} SplitConcat(pol: Policy, table: GearTable, s: bytes)
    ensures Concat(Split(pol, table, s)) == s
  {
    if s != [] {
      var k := FirstCut(pol, table, s);
      if k == 0 {
        assert Concat([s]) == s + Concat([]);
      } else {
        SplitConcat(pol, table, s[k..]);
        assert Split(pol, table, s)[1..] == Split(pol, table, s[k..]);
        assert s == s[..k] + s[k..];
      }
    }
  }

  /** A piece that ends at a true boundary, with no boundary before its end. */
  ghost predicate TruePiece(pol: Policy, table: GearTable, p: bytes) {
    IsFirstCut(pol, table, p, |p|)
  }

  lemma TruePieceOfCut(pol: Policy, table: GearTable, s: bytes)
    requires FirstCut(pol, table, s) != 0
    ensures TruePiece(pol, table, s[..FirstCut(pol, table, s)])
  {
    var k := FirstCut(pol, table, s);
    assert s == s[..k] + s[k..];
    forall j: nat | j <= k
      ensures CutAt(pol, table, s, j) == CutAt(pol, table, s[..k], j)
    {
      CutAtPrefix(pol, table, s[..k], s[k..], j);
    }
  }

  /** What the pieces of any stream look like: all but the last are true pieces, and the last one is
      a true piece or has no boundary at all. With SplitConcat this determines the split. */
  ghost predicate WellCut(pol: Policy, table: GearTable, ps: seq<bytes>) {
    && (forall i :: 0 <= i < |ps| - 1 ==> TruePiece(pol, table, ps[i]))
    && (ps != [] ==>
          var last := ps[|ps| - 1];
          last != [] && (TruePiece(pol, table, last) || NoCut(pol, table, last)))
  }

  lemma {:induction false} SplitWellCut(pol: Policy, table: GearTable, s: bytes)
    ensures WellCut(pol, table, Split(pol, table, s))
  {
    if s != [] {
      var k := FirstCut(pol, table, s);
      if k != 0 {
        var rest := Split(pol, table, s[k..]);
        SplitWellCut(pol, table, s[k..]);
        TruePieceOfCut(pol, table, s);
        var ps := Split(pol, table, s);
        assert forall i :: 1 <= i < |ps| ==> ps[i] == rest[i - 1];
      }
    }
  }

  /** A well-cut list of pieces is the split of its concatenation: the split is the only one. */
  lemma {:induction false} WellCutIsSplit(pol: Policy, table: GearTable, ps: seq<bytes>)
    requires WellCut(pol, table, ps)
    ensures Split(pol, table, Concat(ps)) == ps
  {
    if ps != [] {
      var p, rest := ps[0], ps[1..];
      if rest == [] {
        assert Concat(ps) == p + Concat(rest) == p;
        if TruePiece(pol, table, p) {
          FirstCutUnique(pol, table, p, |p|);
          assert Split(pol, table, p) == [p[..|p|]] + Split(pol, table, p[|p|..]);
        }
      } else {
        assert ps[|ps| - 1] == rest[|rest| - 1];
        assert forall i :: 0 <= i < |rest| ==> rest[i] == ps[i + 1];
        WellCutIsSplit(pol, table, rest);
        assert TruePiece(pol, table, ps[0]);
        FirstCutUnique(pol, table, p, |p|);
        FirstCutPrefix(pol, table, p, Concat(rest));
        assert Concat(ps)[..|p|] == p && Concat(ps)[|p|..] == Concat(rest);
      }
    }
  }

  /** The stream a, cut at its very end: every piece of it is a true piece. */
  ghost predicate EndsAtCut(pol: Policy, table: GearTable, a: bytes) {
    forall p :: p in Split(pol, table, a) ==> TruePiece(pol, table, p)
  }

  /** Splitting has no memory across a cut: after a boundary the rest is split as if it stood alone. */
  lemma SplitMemoryless(pol: Policy, table: GearTable, a: bytes, b: bytes)
    requires EndsAtCut(pol, table, a)
    ensures Split(pol, table, a + b) == Split(pol, table, a) + Split(pol, table, b)
  {
    hide Split, FirstCut, CutAt, Concat;
    var ps, qs := Split(pol, table, a), Split(pol, table, b);
    SplitWellCut(pol, table, b);
    SplitConcat(pol, table, a);
    SplitConcat(pol, table, b);
    ConcatAppend(ps, qs);
    var all := ps + qs;
    forall i | 0 <= i < |all| - 1
      ensures TruePiece(pol, table, all[i])
    {
      if i < |ps| { assert ps[i] in ps; }
    }
    if qs != [] {
      assert all[|all| - 1] == qs[|qs| - 1];
    } else if ps != [] {
      assert ps[|ps| - 1] in ps;
    }
    WellCutIsSplit(pol, table, all);
  }

  /** Two streams that both cut where a common suffix starts share every piece from there on. */
  lemma SplitResynchronises(pol: Policy, table: GearTable, a: bytes, a': bytes, common: bytes)
    requires EndsAtCut(pol, table, a) && EndsAtCut(pol, table, a')
    ensures Split(pol, table, a) <= Split(pol, table, a + common)
    ensures Split(pol, table, a') <= Split(pol, table, a' + common)
    ensures Split(pol, table, a + common)[|Split(pol, table, a)|..]
         == Split(pol, table, a' + common)[|Split(pol, table, a')|..]
         == Split(pol, table, common)
  {
    SplitMemoryless(pol, table, a, common);
    SplitMemoryless(pol, table, a', common);
  }

  // ---- Piece sizes ----

  lemma CutSize(pol: Policy, table: GearTable, s: bytes)
    ensures FirstCut(pol, table, s) != 0 && pol.mode == Fixed ==> FirstCut(pol, table, s) == pol.avg
    ensures FirstCut(pol, table, s) != 0 && pol.mode == Cdc ==> pol.min <= FirstCut(pol, table, s) <= pol.max
    ensures FirstCut(pol, table, s) == 0 && pol.mode == Fixed ==> |s| < pol.avg
    ensures FirstCut(pol, table, s) == 0 && pol.mode == Cdc ==> |s| < pol.max
  {
    var k := FirstCut(pol, table, s);
    var top := if pol.mode == Fixed then pol.avg else pol.max;
    if |s| >= top {
      assert CutAt(pol, table, s, top);
    }
  }

  /** Sizes of the pieces. Fixed: all of the average size, the last at most that. Content-defined: at
      most max, all but the last at least min. None is empty. */
  lemma SplitSizes(pol: Policy, table: GearTable, s: bytes, i: nat)
    requires i < |Split(pol, table, s)|
    ensures var ps := Split(pol, table, s);
      && 1 <= |ps[i]| <= pol.max
      && (pol.mode == Fixed ==> |ps[i]| <= pol.avg)
      && (i < |ps| - 1 ==> |ps[i]| >= pol.min && (pol.mode == Fixed ==> |ps[i]| == pol.avg))
  {
    var ps := Split(pol, table, s);
    SplitWellCut(pol, table, s);
    var p := ps[i];
    if TruePiece(pol, table, p) {
      FirstCutUnique(pol, table, p, |p|);
    }
    CutSize(pol, table, p);
  }
}
