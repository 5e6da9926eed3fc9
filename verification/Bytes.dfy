/** Bytes, fixed-width unsigned numbers, little-endian fields and the bitwise "and". */
module Bytes {
  type byte = x: int | 0 <= x < 256
  type bytes = seq<byte>

  const TWO16: nat := 0x1_0000
  const TWO32: nat := 0x1_0000_0000
  const TWO64: nat := 0x1_0000_0000_0000_0000
  const TWO256: nat := 0x1_0000_0000_0000_0000_0000_0000_0000_0000_0000_0000_0000_0000_0000_0000_0000_0000

  type uint16 = x: int | 0 <= x < TWO16
  type uint32 = x: int | 0 <= x < TWO32
  type uint64 = x: int | 0 <= x < TWO64

  /** A 32-byte digest, as the number its bytes spell in little-endian order. Zero is "not assigned". */
  type Id = x: int | 0 <= x < TWO256

  /** A checksum: nothing proved here depends on which function of the bytes it is. */
  type Crc = bytes -> uint32

  function Pow2(n: nat): (r: nat)
    ensures r >= 1
  {
    if n == 0 then 1 else 2 * Pow2(n - 1)
  }

  lemma {:induction false} Pow2Add(a: nat, b: nat)
    ensures Pow2(a + b) == Pow2(a) * Pow2(b)
  {
    if a > 0 {
      Pow2Add(a - 1, b);
      assert Pow2(a + b) == 2 * Pow2(a - 1 + b);
    }
  }

  lemma {:induction false} Pow2Monotone(a: nat, b: nat)
    requires a <= b
    ensures Pow2(a) <= Pow2(b)
    decreases b
  {
    if a < b {
      Pow2Monotone(a, b - 1);
    }
  }

  lemma Pow2At64()
    ensures Pow2(64) == TWO64
  {
    assert Pow2(4) == 16;
    Pow2Add(4, 4);
    Pow2Add(8, 8);
    Pow2Add(16, 16);
    Pow2Add(32, 32);
  }

  // ---- Little-endian fields ----

  function Pow256(width: nat): (r: nat)
    ensures r >= 1
  {
    if width == 0 then 1 else 256 * Pow256(width - 1)
  }

  lemma {:induction false} Pow256Add(a: nat, b: nat)
    ensures Pow256(a + b) == Pow256(a) * Pow256(b)
  {
    if a > 0 {
      Pow256Add(a - 1, b);
      assert Pow256(a + b) == 256 * Pow256(a - 1 + b);
    }
  }

  lemma FieldWidths()
    ensures Pow256(2) == TWO16 && Pow256(4) == TWO32 && Pow256(8) == TWO64 && Pow256(32) == TWO256
  {
    assert Pow256(1) == 256;
    Pow256Add(1, 1);
    Pow256Add(2, 2);
    Pow256Add(4, 4);
    Pow256Add(8, 8);
    Pow256Add(16, 16);
  }

  /** The `width` low bytes of x, least significant first. */
  function LE(x: nat, width: nat): (s: bytes)
    ensures |s| == width
  {
    if width == 0 then [] else [x % 256] + LE(x / 256, width - 1)
  }

  function FromLE(s: bytes): nat
  {
    if s == [] then 0 else s[0] + 256 * FromLE(s[1..])
  }

  lemma {:induction false} FromLEOfLE(x: nat, width: nat)
    requires x < Pow256(width)
    ensures FromLE(LE(x, width)) == x
  {
    if width > 0 {
      FromLEOfLE(x / 256, width - 1);
      assert LE(x, width)[1..] == LE(x / 256, width - 1);
    }
  }

  lemma {:induction false} LEOfFromLE(s: bytes)
    ensures FromLE(s) < Pow256(|s|)
    ensures LE(FromLE(s), |s|) == s
  {
    if s != [] {
      LEOfFromLE(s[1..]);
      LowByte(s[0], FromLE(s[1..]));
      assert s == [s[0]] + s[1..];
    }
  }

  /** The number the bytes s spell, term by term: byte i weighs 256 to the i. */
  ghost function Spelled(s: bytes): nat
  {
    if s == [] then 0 else Spelled(s[..|s| - 1]) + s[|s| - 1] * Pow256(|s| - 1)
  }

  lemma {:induction false} FromLEAppend(a: bytes, b: bytes)
    ensures FromLE(a + b) == FromLE(a) + Pow256(|a|) * FromLE(b)
  {
    if a == [] {
      assert a + b == b;
    } else {
      FromLEAppend(a[1..], b);
      assert (a + b)[1..] == a[1..] + b;
      TimesOut(Pow256(|a| - 1), FromLE(b));
    }
  }

  lemma TimesOut(p: nat, v: nat)
    ensures 256 * (p * v) == (256 * p) * v
  {
  }

  lemma {:induction false} FromLEIsSpelled(s: bytes)
    ensures FromLE(s) == Spelled(s)
  {
    if s != [] {
      var n := |s| - 1;
      FromLEIsSpelled(s[..n]);
      FromLEAppend(s[..n], s[n..]);
      assert s == s[..n] + s[n..] && s[n..][1..] == [];
      assert FromLE(s[n..]) == s[n] + 256 * FromLE(s[n..][1..]);
    }
  }

  lemma LowByte(b: byte, v: nat)
    ensures (b + 256 * v) % 256 == b && (b + 256 * v) / 256 == v
  {
  }

  // ---- Bitwise and ----

  function And(a: nat, b: nat): nat
  {
    if a == 0 || b == 0 then 0
    else (if a % 2 == 1 && b % 2 == 1 then 1 else 0) + 2 * And(a / 2, b / 2)
  }

  /** Bit i is set exactly if it is set in both. */
  lemma {:induction false} AndBit(a: nat, b: nat, i: nat)
    ensures And(a, b) / Pow2(i) % 2 == 1 <==> a / Pow2(i) % 2 == 1 && b / Pow2(i) % 2 == 1
    decreases i
  {
    hide And;
    if i == 0 {
      AndLow(a, b);
    } else {
      AndBit(a / 2, b / 2, i - 1);
      AndLow(a, b);
      HalfAndShift(a, i);
      HalfAndShift(b, i);
      HalfAndShift(And(a, b), i);
    }
  }

  lemma AndLow(a: nat, b: nat)
    ensures And(a, b) / 2 == And(a / 2, b / 2)
    ensures And(a, b) % 2 == 1 <==> a % 2 == 1 && b % 2 == 1
  {
  }

  lemma HalfAndShift(a: nat, i: nat)
    requires i > 0
    ensures a / Pow2(i) == a / 2 / Pow2(i - 1)
  {
    var p, q, r := Pow2(i - 1), a / 2 / Pow2(i - 1), a / 2 % Pow2(i - 1);
    assert a / 2 == q * p + r;
    assert a == (2 * p) * q + (2 * r + a % 2);
    ModUnique(a, 2 * p, q, 2 * r + a % 2);
  }

  /** Masking with k ones keeps exactly the remainder modulo 2^k. */
  lemma {:induction false} AndOnes(a: nat, k: nat)
    ensures And(a, Pow2(k) - 1) == a % Pow2(k)
    decreases k
  {
    hide And;
    if k == 0 {
      AndNone(a);
    } else {
      AndOnes(a / 2, k - 1);
      AndOneMore(a, Pow2(k - 1));
    }
  }

  lemma AndNone(a: nat)
    ensures And(a, 0) == 0 == a % 1
  {
  }

  lemma AndOneMore(a: nat, m: nat)
    requires m >= 1 && And(a / 2, m - 1) == (a / 2) % m
    ensures And(a, 2 * m - 1) == a % (2 * m)
  {
    hide And;
    AndHalves(a, m);
    HalveMod(a, m);
  }

  lemma AndHalves(a: nat, m: nat)
    requires m >= 1
    ensures And(a, 2 * m - 1) == a % 2 + 2 * And(a / 2, m - 1)
  {
    assert (2 * m - 1) / 2 == m - 1 && (2 * m - 1) % 2 == 1;
  }

  lemma HalveMod(a: nat, m: nat)
    requires m >= 1
    ensures a % (2 * m) == a % 2 + 2 * ((a / 2) % m)
  {
    var q, r := (a / 2) / m, (a / 2) % m;
    assert a / 2 == q * m + r;
    assert a == (2 * m) * q + (2 * r + a % 2);
    ModUnique(a, 2 * m, q, 2 * r + a % 2);
  }

  lemma MultipleAtLeast(m: int, d: int)
    requires m > 0 && d >= 1
    ensures m * d >= m
  {
    assert m * d == m * (d - 1) + m;
  }

  lemma ModUnique(a: int, m: int, q: int, r: int)
    requires m > 0 && 0 <= r < m && a == m * q + r
    ensures a % m == r && a / m == q
  {
    var q', r' := a / m, a % m;
    assert a == m * q' + r' && 0 <= r' < m;
    var d := q' - q;
    assert m * d == r - r' by { assert m * d == m * q' - m * q; }
    if d >= 1 {
      MultipleAtLeast(m, d);
    } else if d <= -1 {
      MultipleAtLeast(m, -d);
    }
  }

  /** Reducing modulo a larger multiple first does not change the remainder. */
  lemma ModOfMod(a: int, m: int, k: int)
    requires m > 0 && k > 0
    ensures (a % (m * k)) % m == a % m
  {
    var q, r := a / (m * k), a % (m * k);
    assert a == (m * k) * q + r;
    var q', r' := r / m, r % m;
    assert r == m * q' + r';
    assert (m * k) * q == m * (k * q);
    assert m * (k * q + q') == m * (k * q) + m * q';
    ModUnique(a, m, k * q + q', r');
  }

  /** Wrapping at every addition or once at the end is the same. */
  lemma WrapAdd(a: nat, n: nat)
    ensures (a % TWO64 + n) % TWO64 == (a + n) % TWO64
  {
    var q, w := a / TWO64, a % TWO64 + n;
    ModUnique(a + n, TWO64, q + w / TWO64, w % TWO64);
  }

  // ---- Concatenation ----

  function Concat(ps: seq<bytes>): bytes
  {
    if ps == [] then [] else ps[0] + Concat(ps[1..])
  }

  lemma {:induction false} ConcatAppend(a: seq<bytes>, b: seq<bytes>)
    ensures Concat(a + b) == Concat(a) + Concat(b)
  {
    hide Concat;
    NoPieces();
    if a == [] {
      assert a + b == b;
    } else {
      ConcatAppend(a[1..], b);
      ConcatCons(a[0], a[1..] + b);
      ConcatCons(a[0], a[1..]);
      assert [a[0]] + (a[1..] + b) == a + b && [a[0]] + a[1..] == a;
    }
  }

  lemma NoPieces()
    ensures Concat([]) == []
  {
  }

  lemma ConcatCons(p: bytes, ps: seq<bytes>)
    ensures Concat([p] + ps) == p + Concat(ps)
  {
    assert ([p] + ps)[1..] == ps;
  }

  lemma ConcatSnoc(a: seq<bytes>, p: bytes)
    ensures Concat(a + [p]) == Concat(a) + p
  {
    ConcatAppend(a, [p]);
    assert Concat([p]) == p + Concat([]) == p;
  }
}
