/** Sums over finite maps: of multisets (reference demand) and of numbers (byte totals). */
module Sums {

  /** Multiset sum of all values of m, with multiplicity. */
  ghost function Total<K, V>(m: map<K, multiset<V>>): multiset<V>
  {
    if m == map[] then multiset{}
    else
      var k :| k in m;
      m[k] + Total(m - {k})
  }

  lemma {:induction false} TotalPick<K, V>(m: map<K, multiset<V>>, k: K)
    requires k in m
    ensures Total(m) == m[k] + Total(m - {k})
    decreases |m|
  {
    var j :| j in m && Total(m) == m[j] + Total(m - {j});
    if j != k {
      TotalPick(m - {j}, k);
      TotalPick(m - {k}, j);
      assert m - {j} - {k} == m - {k} - {j};
    }
  }

  lemma TotalSet<K, V>(m: map<K, multiset<V>>, k: K, v: multiset<V>)
    ensures k in m ==> Total(m[k := v]) + m[k] == Total(m) + v
    ensures k !in m ==> Total(m[k := v]) == Total(m) + v
  {
    var m' := m[k := v];
    TotalPick(m', k);
    if k in m {
      TotalPick(m, k);
      assert m' - {k} == m - {k};
    } else {
      assert m' - {k} == m;
    }
  }

  /** An element of the sum comes from one of the summands. */
  lemma {:induction false} TotalMember<K, V>(m: map<K, multiset<V>>, v: V) returns (k: K)
    requires v in Total(m)
    ensures k in m && v in m[k]
    decreases |m|
  {
    var j :| j in m && Total(m) == m[j] + Total(m - {j});
    if v in m[j] {
      k := j;
    } else {
      k := TotalMember(m - {j}, v);
    }
  }

  lemma TotalCovers<K, V>(m: map<K, multiset<V>>, k: K)
    requires k in m
    ensures m[k] <= Total(m)
  {
    TotalPick(m, k);
  }

  /** An element that at most the summand at k has. */
  lemma TotalAt<K, V>(m: map<K, multiset<V>>, k: K, v: V)
    requires forall j :: j in m && j != k ==> v !in m[j]
    ensures Total(m)[v] == if k in m then m[k][v] else 0
  {
    if k in m {
      TotalPick(m, k);
      if v in Total(m - {k}) {
        var j := TotalMember(m - {k}, v);
      }
    } else if v in Total(m) {
      var j := TotalMember(m, v);
    }
  }

  /** Summands that go one to one into larger ones of another sum. */
  lemma {:induction false} TotalInto<K, L, V>(m: map<K, multiset<V>>, into: map<L, multiset<V>>, f: K -> L)
    requires forall k :: k in m ==> f(k) in into && m[k] <= into[f(k)]
    requires forall j, k :: j in m && k in m && f(j) == f(k) ==> j == k
    ensures Total(m) <= Total(into)
    decreases |m|
  {
    if m != map[] {
      var k :| k in m;
      TotalPick(m, k);
      TotalPick(into, f(k));
      TotalInto(m - {k}, into - {f(k)}, f);
    }
  }

  /** Sum of the numbers in m. */
  ghost function Sum<K>(m: map<K, nat>): nat
  {
    if m == map[] then 0
    else
      var k :| k in m;
      m[k] + Sum(m - {k})
  }

  lemma {:induction false} SumPick<K>(m: map<K, nat>, k: K)
    requires k in m
    ensures Sum(m) == m[k] + Sum(m - {k})
    decreases |m|
  {
    var j :| j in m && Sum(m) == m[j] + Sum(m - {j});
    if j != k {
      SumPick(m - {j}, k);
      SumPick(m - {k}, j);
      assert m - {j} - {k} == m - {k} - {j};
    }
  }

  lemma SumSet<K>(m: map<K, nat>, k: K, v: nat)
    ensures k in m ==> Sum(m[k := v]) + m[k] == Sum(m) + v
    ensures k !in m ==> Sum(m[k := v]) == Sum(m) + v
  {
    var m' := m[k := v];
    SumPick(m', k);
    if k in m {
      SumPick(m, k);
      assert m' - {k} == m - {k};
    } else {
      assert m' - {k} == m;
    }
  }

  /** A pointwise smaller map on fewer keys has the smaller sum. */
  lemma {:induction false} SumMonotone<K>(a: map<K, nat>, b: map<K, nat>)
    requires forall k :: k in a ==> k in b && a[k] <= b[k]
    ensures Sum(a) <= Sum(b)
    decreases |a|
  {
    if a != map[] {
      var k :| k in a;
      SumPick(a, k);
      SumPick(b, k);
      SumMonotone(a - {k}, b - {k});
    }
  }

  /** Summing two maps with the same keys together. */
  lemma {:induction false} TotalPlus<K, V>(a: map<K, multiset<V>>, b: map<K, multiset<V>>, c: map<K, multiset<V>>)
    requires a.Keys == b.Keys == c.Keys
    requires forall k :: k in c ==> c[k] == a[k] + b[k]
    ensures Total(c) == Total(a) + Total(b)
    decreases |c|
  {
    if c == map[] {
      assert a == map[] && b == map[];
    } else {
      hide Total;
      var k :| k in c;
      TotalPick(a, k);
      TotalPick(b, k);
      TotalPick(c, k);
      TotalPlus(a - {k}, b - {k}, c - {k});
      Interchange(a[k], b[k], Total(a - {k}), Total(b - {k}));
    }
  }

  lemma Interchange<V>(a: multiset<V>, b: multiset<V>, c: multiset<V>, d: multiset<V>)
    ensures (a + b) + (c + d) == (a + c) + (b + d)
  {
  }

  /** Entries with nothing in them do not count. */
  lemma {:induction false} TotalPad<K, V>(m: map<K, multiset<V>>, padded: map<K, multiset<V>>)
    requires m.Keys <= padded.Keys
    requires forall k :: k in padded ==> padded[k] == if k in m then m[k] else multiset{}
    ensures Total(padded) == Total(m)
    decreases |padded|
  {
    if padded != map[] {
      var k :| k in padded;
      TotalPick(padded, k);
      if k in m {
        TotalPick(m, k);
        TotalPad(m - {k}, padded - {k});
      } else {
        TotalPad(m, padded - {k});
      }
    }
  }

  /** The same summands filed under K and under L, where to and from say which is which. */
  lemma {:induction false} TotalRefiled<K, L, V>(a: map<K, multiset<V>>, b: map<L, multiset<V>>, to: map<K, L>,
                                                 from: map<L, K>)
    requires forall k :: k in a && a[k] != multiset{} ==>
               k in to && to[k] in b && to[k] in from && from[to[k]] == k && b[to[k]] == a[k]
    requires forall l :: l in b && b[l] != multiset{} ==>
               l in from && from[l] in a && from[l] in to && to[from[l]] == l && a[from[l]] == b[l]
    ensures Total(a) == Total(b)
    decreases |a|
  {
    if k :| k in a && a[k] != multiset{} {
      TotalPick(a, k);
      TotalPick(b, to[k]);
      TotalRefiled(a - {k}, b - {to[k]}, to, from);
    } else {
      TotalPad(map[], a);
      TotalPad(map[], b);
    }
  }

  /** The same numbers filed under K and under L. */
  lemma {:induction false} SumRefiled<K, L>(a: map<K, nat>, b: map<L, nat>, to: map<K, L>)
    requires to.Keys == a.Keys
    requires forall k :: k in a ==> to[k] in b && b[to[k]] == a[k]
    requires forall i, j :: i in a && j in a && to[i] == to[j] ==> i == j
    requires forall l :: l in b ==> exists k :: k in a && to[k] == l
    ensures Sum(a) == Sum(b)
    decreases |a|
  {
    if a == map[] {
      assert b == map[];
    } else {
      var k :| k in a;
      SumPick(a, k);
      SumPick(b, to[k]);
      forall l | l in b - {to[k]}
        ensures exists i :: i in a - {k} && (to - {k})[i] == l
      {
        var i :| i in a && to[i] == l;
        assert i in a - {k} && (to - {k})[i] == l;
      }
      SumRefiled(a - {k}, b - {to[k]}, to - {k});
    }
  }

  /** Weight of a multiset: every element as often as it occurs. */
  ghost function Weight<V>(ms: multiset<V>, w: map<V, nat>): nat
  {
    if ms == multiset{} then 0
    else
      var v :| v in ms;
      (if v in w then w[v] else 0) + Weight(ms - multiset{v}, w)
  }

  lemma {:induction false} WeightPick<V>(ms: multiset<V>, w: map<V, nat>, v: V)
    requires v in ms
    ensures Weight(ms, w) == (if v in w then w[v] else 0) + Weight(ms - multiset{v}, w)
    decreases |ms|
  {
    var u :| u in ms && Weight(ms, w) == (if u in w then w[u] else 0) + Weight(ms - multiset{u}, w);
    if u != v {
      WeightPick(ms - multiset{u}, w, v);
      WeightPick(ms - multiset{v}, w, u);
      assert ms - multiset{u} - multiset{v} == ms - multiset{v} - multiset{u};
    }
  }

  lemma {:induction false} WeightPlus<V>(a: multiset<V>, b: multiset<V>, w: map<V, nat>)
    ensures Weight(a + b, w) == Weight(a, w) + Weight(b, w)
    decreases |a|
  {
    if a == multiset{} {
      assert a + b == b;
    } else {
      var v :| v in a;
      WeightPick(a, w, v);
      WeightPick(a + b, w, v);
      assert a + b - multiset{v} == (a - multiset{v}) + b;
      WeightPlus(a - multiset{v}, b, w);
    }
  }

  ghost function Weights<K, V>(m: map<K, multiset<V>>, w: map<V, nat>): map<K, nat> {
    map k | k in m :: Weight(m[k], w)
  }

  lemma NothingWeighs<K, V>(m: map<K, multiset<V>>, ms: multiset<V>, w: map<V, nat>)
    ensures m == map[] ==> Weight(Total(m), w) == Sum(Weights(m, w)) == 0
    ensures ms == multiset{} ==> Weight(ms, w) == Sum(Products(ms, w)) == 0
  {
    assert m == map[] ==> Weights(m, w) == map[];
    assert ms == multiset{} ==> Products(ms, w) == map[];
  }

  lemma {:induction false} WeightTotal<K, V>(m: map<K, multiset<V>>, w: map<V, nat>)
    ensures Weight(Total(m), w) == Sum(Weights(m, w))
    decreases |m|
  {
    NothingWeighs(m, multiset{}, w);
    hide Weight, Total, Sum;
    if m != map[] {
      var k :| k in m;
      TotalPick(m, k);
      WeightPlus(m[k], Total(m - {k}), w);
      WeightTotal(m - {k}, w);
      assert Weights(m - {k}, w) == Weights(m, w) - {k};
      SumPick(Weights(m, w), k);
    }
  }

  ghost function Times(n: nat, x: nat): nat {
    n * x
  }

  lemma TimesOneMore(n: nat, x: nat)
    ensures Times(n + 1, x) == Times(n, x) + x && Times(0, x) == 0
  {
  }

  ghost function At<V>(w: map<V, nat>, v: V): nat {
    if v in w then w[v] else 0
  }

  ghost function Products<V>(ms: multiset<V>, w: map<V, nat>): map<V, nat> {
    map v | v in ms :: Times(ms[v], At(w, v))
  }

  /** The weight is the sum of multiplicity times weight. */
  lemma {:induction false} WeightIsProducts<V>(ms: multiset<V>, w: map<V, nat>)
    ensures Weight(ms, w) == Sum(Products(ms, w))
    decreases |ms|
  {
    NothingWeighs<V, V>(map[], ms, w);
    hide Weight, Sum, Times;
    if ms != multiset{} {
      var v :| v in ms;
      var rest := ms - multiset{v};
      WeightPick(ms, w, v);
      WeightIsProducts(rest, w);
      ProductsOneMore(ms, w, v);
      SumSet(Products(rest, w), v, Times(ms[v], At(w, v)));
    }
  }

  /** One more v adds one weight to its product and changes no other. */
  lemma ProductsOneMore<V>(ms: multiset<V>, w: map<V, nat>, v: V)
    requires v in ms
    ensures var rest := ms - multiset{v};
      && Products(ms, w) == Products(rest, w)[v := Times(ms[v], At(w, v))]
      && Times(ms[v], At(w, v)) == At(w, v) + if v in rest then Products(rest, w)[v] else 0
  {
    var rest := ms - multiset{v};
    TimesOneMore(rest[v], At(w, v));
    TimesOneMore(0, At(w, v));
    hide Times;
  }
}
