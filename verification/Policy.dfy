/** The splitting policy and its normalisation (internal/chunk/policy.go). */
module Policy {
  import opened Bytes

  const MIN_AVG: int := 1
  const MAX_AVG: int := 0x40_0000
  const DEFAULT_AVG: int := 0x1_0000

  datatype Mode = Fixed | Cdc

  /** A policy as the caller writes it: any sizes at all. */
  datatype RawPolicy = RawPolicy(mode: Mode, avg: int, min: int, max: int)

  ghost predicate IsPow2(n: int) {
    exists k: nat :: n == Pow2(k)
  }

  ghost predicate Normal(p: RawPolicy) {
    && IsPow2(p.avg)
    && 1 <= p.min <= p.avg <= p.max <= 4 * MAX_AVG
    && p.avg <= MAX_AVG
  }

  lemma UnitPolicyNormal()
    ensures Normal(RawPolicy(Fixed, 1, 1, 1))
  {
    assert 1 == Pow2(0);
  }

  /** A policy a splitter can run with. */
  type Policy = p: RawPolicy | Normal(p) ghost witness (UnitPolicyNormal(); RawPolicy(Fixed, 1, 1, 1))

  /** math/bits.Len: the number of binary digits. */
  function BitLen(n: nat): nat
  {
    if n == 0 then 0 else 1 + BitLen(n / 2)
  }

  /** math/bits.TrailingZeros, for a positive argument. */
  function TrailingZeros(n: nat): nat
    requires n > 0
  {
    if n % 2 == 1 then 0 else 1 + TrailingZeros(n / 2)
  }

  lemma {:induction false} BitLenBounds(n: nat)
    requires n > 0
    ensures BitLen(n) > 0 && Pow2(BitLen(n) - 1) <= n < Pow2(BitLen(n))
  {
    if n == 1 {
      assert BitLen(1) == 1 + BitLen(0);
      assert Pow2(1) == 2 * Pow2(0);
    } else {
      BitLenBounds(n / 2);
      assert BitLen(n) == 1 + BitLen(n / 2);
      assert Pow2(BitLen(n)) == 2 * Pow2(BitLen(n / 2));
      assert Pow2(BitLen(n) - 1) == 2 * Pow2(BitLen(n / 2) - 1);
    }
  }

  lemma {:induction false} TrailingZerosOfPow2(k: nat)
    ensures TrailingZeros(Pow2(k)) == k
  {
    if k > 0 {
      TrailingZerosOfPow2(k - 1);
      assert Pow2(k) == 2 * Pow2(k - 1);
    }
  }

  lemma {:induction false} AndSelf(n: nat)
    ensures And(n, n) == n
  {
    if n > 0 {
      AndSelf(n / 2);
    }
  }

  lemma Pow2Parity(k: nat)
    ensures Pow2(k) == 1 || Pow2(k) % 2 == 0
  {
  }

  /** The bit trick `n & (n - 1) == 0` recognises exactly the powers of two. */
  lemma {:induction false} AndPredecessor(n: nat)
    requires n > 0
    ensures And(n, n - 1) == 0 <==> IsPow2(n)
  {
    if n == 1 {
      assert 1 == Pow2(0);
    } else if n % 2 == 0 {
      AndPredecessor(n / 2);
      assert (n - 1) / 2 == n / 2 - 1;
      if IsPow2(n / 2) {
        var k: nat :| n / 2 == Pow2(k);
        assert n == Pow2(k + 1);
      }
      if IsPow2(n) {
        var k: nat :| n == Pow2(k);
        assert n / 2 == Pow2(k - 1);
      }
    } else {
      assert (n - 1) / 2 == n / 2;
      AndSelf(n / 2);
      forall k: nat
        ensures n != Pow2(k)
      {
        Pow2Parity(k);
      }
    }
  }

  function Clamp(x: int, lo: int, hi: int): int {
    if x < lo then lo else if x > hi then hi else x
  }

  /** The requested average size after the default and the limits, before rounding. */
  function WantedAvg(avg: int): int {
    Clamp(if avg <= 0 then DEFAULT_AVG else avg, MIN_AVG, MAX_AVG)
  }

  function RoundAvg(avg: int): int
    requires avg > 0
  {
    if And(avg, avg - 1) == 0 then avg
    else
      var hi := Pow2(BitLen(avg));
      var lo := hi / 2;
      Clamp(if avg - lo <= hi - avg then lo else hi, MIN_AVG, MAX_AVG)
  }

  lemma MaxAvgIsPow2()
    ensures MAX_AVG == Pow2(22) && DEFAULT_AVG == Pow2(16)
  {
    assert Pow2(4) == 16;
    assert Pow2(6) == 64;
    Pow2Add(4, 4);
    Pow2Add(8, 8);
    Pow2Add(16, 6);
  }

  ghost function Distance(a: int, b: int): nat {
    if a <= b then b - a else a - b
  }

  /** No power of two lies strictly between two consecutive ones. */
  lemma NoPow2Between(b: nat, k: nat)
    ensures Pow2(k) <= Pow2(b) || Pow2(k) >= Pow2(b + 1)
  {
    if k <= b { Pow2Monotone(k, b); } else { Pow2Monotone(b + 1, k); }
  }

  lemma RoundUpStaysInside(avg: int, b: nat)
    requires 1 <= avg <= MAX_AVG && Pow2(b) < avg
    ensures Pow2(b + 1) <= MAX_AVG
  {
    MaxAvgIsPow2();
    if b >= 22 {
      Pow2Monotone(22, b);
    } else {
      Pow2Monotone(b + 1, 22);
    }
  }

  /** Rounding gives a power of two within the limits, as near as any other, the lower one on a tie. */
  lemma RoundAvgNearest(avg: int)
    requires MIN_AVG <= avg <= MAX_AVG
    ensures IsPow2(RoundAvg(avg)) && MIN_AVG <= RoundAvg(avg) <= MAX_AVG
    ensures forall k: nat :: Distance(RoundAvg(avg), avg) <= Distance(Pow2(k), avg)
    ensures forall k: nat :: Distance(RoundAvg(avg), avg) == Distance(Pow2(k), avg) ==> RoundAvg(avg) <= Pow2(k)
  {
    AndPredecessor(avg);
    if !IsPow2(avg) {
      BitLenBounds(avg);
      var b := BitLen(avg) - 1;
      var lo := Pow2(b);
      assert Pow2(b + 1) == 2 * lo;
      assert lo != avg;
      RoundUpStaysInside(avg, b);
      assert RoundAvg(avg) == if avg - lo <= 2 * lo - avg then lo else 2 * lo;
      forall k: nat
        ensures Pow2(k) <= lo || Pow2(k) >= 2 * lo
      {
        NoPow2Between(b, k);
      }
    }
  }

  /** Corrects the bounds: average near a power of two, 1 <= min <= avg <= max <= 16 MiB. */
  function Normalize(p: RawPolicy): Policy
  {
    var avg := RoundAvg(WantedAvg(p.avg));
    RoundAvgNearest(WantedAvg(p.avg));
    var min0 := if p.min <= 0 then avg / 4 else p.min;
    var max0 := if p.max <= 0 then avg * 4 else p.max;
    var min1 := if min0 < 1 then 1 else min0;
    var min := if min1 > avg then avg else min1;
    var max1 := if max0 < avg then avg else max0;
    var max := if max1 > 4 * MAX_AVG then 4 * MAX_AVG else max1;
    RawPolicy(p.mode, avg, min, max)
  }

  /** For every input whatever: the average is the nearest power of two to the clamped request. */
  lemma NormalizeNearest(p: RawPolicy, k: nat)
    ensures Distance(Normalize(p).avg, WantedAvg(p.avg)) <= Distance(Pow2(k), WantedAvg(p.avg))
    ensures Distance(Normalize(p).avg, WantedAvg(p.avg)) == Distance(Pow2(k), WantedAvg(p.avg))
         ==> Normalize(p).avg <= Pow2(k)
    ensures 1 <= Normalize(p).min <= Normalize(p).avg <= Normalize(p).max <= 0x100_0000
  {
    RoundAvgNearest(WantedAvg(p.avg));
  }

  /** What average is aimed at: 64 KiB if none is asked for, else what is asked for, but from 1 to 4 MiB. */
  lemma AverageAimedAt(avg: int)
    ensures avg <= 0 ==> WantedAvg(avg) == 65536
    ensures 1 <= avg <= 4194304 ==> WantedAvg(avg) == avg
    ensures avg > 4194304 ==> WantedAvg(avg) == 4194304
  {
  }

  /** The bounds: a quarter and four times the average if none are asked for, else the value nearest to the
      request within [1, avg] and within [avg, 16 MiB]. */
  lemma NormalizeBounds(p: RawPolicy)
    ensures var q := Normalize(p);
      && q.mode == p.mode
      && (p.min <= 0 ==> q.min == if q.avg < 4 then 1 else q.avg / 4)
      && (p.min > 0 ==> forall x :: 1 <= x <= q.avg ==> Distance(q.min, p.min) <= Distance(x, p.min))
      && (p.max <= 0 ==> q.max == 4 * q.avg)
      && (p.max > 0 ==> forall x :: q.avg <= x <= 16777216 ==> Distance(q.max, p.max) <= Distance(x, p.max))
  {
  }

  /** Normalising changes a policy exactly when it is not normal already. */
  lemma NormalizeFixpoint(p: RawPolicy)
    ensures Normalize(p) == p <==> Normal(p)
  {
    if Normal(p) {
      AndPredecessor(p.avg);
    }
  }

  lemma NormalizeIdempotent(p: RawPolicy)
    ensures Normalize(Normalize(p)) == Normalize(p)
  {
    NormalizeFixpoint(Normalize(p));
  }

  /** Number of low bits the content-defined cut test looks at. */
  function MaskBits(p: RawPolicy): nat
  {
    var bitsN := TrailingZeros(Normalize(p).avg);
    if bitsN <= 0 then 16 else bitsN
  }

  function Mask(p: RawPolicy): nat
  {
    Pow2(MaskBits(p)) - 1
  }

  /** A policy's mask is one less than its average size (or 2^16 - 1 for single bytes), and fits 64 bits. */
  lemma MaskOfPolicy(p: Policy)
    ensures Pow2(MaskBits(p)) == if p.avg == 1 then 65536 else p.avg
    ensures Mask(p) + 1 == (if p.avg == 1 then DEFAULT_AVG else p.avg)
    ensures MaskBits(p) <= 22
  {
    NormalizeFixpoint(p);
    MaxAvgIsPow2();
    var k: nat :| p.avg == Pow2(k);
    TrailingZerosOfPow2(k);
    NoPow2Between(22, k);
    if k > 22 {
      Pow2Monotone(23, k);
      assert false;
    }
    if k > 0 {
      assert Pow2(k) == 2 * Pow2(k - 1);
    }
  }
}
