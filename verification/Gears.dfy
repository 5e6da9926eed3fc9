/** The rolling Gear state and the search for one boundary (internal/chunk/cdc.go). */
module Gears {
  import opened Bytes
  import opened Policy
  import opened Boundary

  /** The same sizes, cutting by content. A Gear ignores the mode of the policy it is made from. */
  function AsCdc(p: Policy): Policy {
    p.(mode := Cdc)
  }

  class Gear {
    const table: GearTable
    const min: nat
    const max: nat
    const mask: nat
    var hash: uint64
    var n: nat
    ghost const pol: Policy
    ghost var fed: bytes   // what was pushed since the last reset

    ghost predicate Valid()
      reads this
    {
      && pol.mode == Cdc && min == pol.min && max == pol.max && mask == Mask(pol)
      && hash == Rolled(table, fed) && n == |fed|
    }

    constructor (p: RawPolicy, table: GearTable)
      ensures Valid() && fed == [] && pol == AsCdc(Normalize(p)) && this.table == table
    {
      var q := Normalize(p);
      NormalizeFixpoint(q);
      NormalizeFixpoint(AsCdc(q));
      this.table := table;
      min, max, mask := q.min, q.max, Mask(q);
      pol := AsCdc(q);
      hash, n, fed := 0, 0, [];
    }

    method Reset()
      requires Valid()
      modifies this
      ensures Valid() && fed == []
    {
      hash, n, fed := 0, 0, [];
    }

    /** Feeds one byte; is the stream to be cut right after it? */
    method Push(b: byte) returns (cut: bool)
      requires Valid()
      modifies this
      ensures Valid() && fed == old(fed) + [b]
      ensures cut <==> CutAt(pol, table, fed, |fed|)
    {
      hash := (2 * hash + table[b]) % TWO64;
      n := n + 1;
      fed := fed + [b];
      assert fed[..|fed| - 1] == old(fed) && fed[..|fed|] == fed;
      if n < min {
        return false;
      }
      if n >= max {
        return true;
      }
      return And(hash, mask) == 0;
    }
  }

  /** The first boundary in p, or none: the least number of bytes, from min on, whose sum ends in as many zero
      bits as the mask has, or max bytes. */
  method FindBoundary(p: bytes, raw: RawPolicy, table: GearTable) returns (cut: nat, ok: bool)
    ensures var pol := AsCdc(Normalize(raw));
      && cut <= |p| && (if ok then pol.min <= cut <= pol.max else |p| < pol.max)
      && (ok ==> cut == pol.max || ZeroBits(pol, table, p[..cut]))
      && forall j :: pol.min <= j <= |p| && (ok ==> j < cut) ==> !ZeroBits(pol, table, p[..j])
    ensures ok ==> IsFirstCut(AsCdc(Normalize(raw)), table, p, cut)
    ensures !ok ==> cut == |p| && NoCut(AsCdc(Normalize(raw)), table, p)
    ensures ok ==> cut == FirstCut(AsCdc(Normalize(raw)), table, p)
  {
    hide Normalize, CutAt, ZeroBits;
    FirstCutExact(AsCdc(Normalize(raw)), table, p);
    var g := new Gear(raw, table);
    for i := 0 to |p|
      invariant g.Valid() && fresh(g) && g.fed == p[..i]
      invariant forall j :: 1 <= j <= i ==> !CutAt(g.pol, table, p, j)
    {
      var now := g.Push(p[i]);
      assert g.fed == p[..i + 1];
      assert p == p[..i + 1] + p[i + 1..];
      CutAtPrefix(g.pol, table, p[..i + 1], p[i + 1..], i + 1);
      if now {
        FirstCutUnique(g.pol, table, p, i + 1);
        return i + 1, true;
      }
    }
    return |p|, false;
  }
}
