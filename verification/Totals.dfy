/** Sums over the values of a finite map, independent of iteration order. */
module Totals {

  ghost function Total<K>(m: map<K, nat>): nat
    decreases |m|
  {
    if m == map[] then 0
    else
      var k :| k in m;
      m[k] + Total(m - {k})
  }

  /** Any key may be split off first. */
  lemma {:induction false} TotalSplit<K>(m: map<K, nat>, k: K)
    requires k in m
    ensures Total(m) == m[k] + Total(m - {k})
    decreases |m|
  {
    var p :| p in m && Total(m) == m[p] + Total(m - {p});
    if p != k {
      TotalSplit(m - {p}, k);
      TotalSplit(m - {k}, p);
      assert m - {p} - {k} == m - {k} - {p};
    }
  }

  lemma TotalInsert<K>(m: map<K, nat>, k: K, v: nat)
    ensures k !in m ==> Total(m[k := v]) == Total(m) + v
    ensures k in m ==> Total(m[k := v]) == Total(m) - m[k] + v
  {
    TotalSplit(m[k := v], k);
    if k in m {
      TotalSplit(m, k);
      assert m[k := v] - {k} == m - {k};
    } else {
      assert m[k := v] - {k} == m;
    }
  }

  lemma {:induction false} TotalUnion<K>(a: map<K, nat>, b: map<K, nat>)
    requires a.Keys !! b.Keys
    ensures Total(a + b) == Total(a) + Total(b)
    decreases |b|
  {
    if b == map[] {
      assert a + b == a;
      assert Total(b) == 0;
    } else {
      var k :| k in b;
      UnionMinus(a, b, k);
      assert Total(a + b) == b[k] + Total(a + (b - {k})) by {
        TotalSplit(a + b, k);
      }
      assert Total(b) == b[k] + Total(b - {k}) by {
        TotalSplit(b, k);
      }
      TotalUnion(a, b - {k});
    }
  }

  lemma UnionMinus<K>(a: map<K, nat>, b: map<K, nat>, k: K)
    requires a.Keys !! b.Keys && k in b
    ensures (a + b) - {k} == a + (b - {k}) && (a + b)[k] == b[k]
  {
    var l, r := (a + b) - {k}, a + (b - {k});
    assert l.Keys == r.Keys;
    assert forall x :: x in l ==> l[x] == r[x];
  }

  /** The part of `m` on the keys in `s`. */
  ghost function Restrict<K, V>(m: map<K, V>, s: set<K>): map<K, V> {
    map k | k in m && k in s :: m[k]
  }

  /** Total weight of `s`; keys outside the map weigh nothing. */
  ghost function Weight<K>(m: map<K, nat>, s: set<K>): nat {
    Total(Restrict(m, s))
  }

  lemma WeightUnion<K>(m: map<K, nat>, a: set<K>, b: set<K>)
    requires a !! b
    ensures Weight(m, a + b) == Weight(m, a) + Weight(m, b)
  {
    assert Restrict(m, a + b) == Restrict(m, a) + Restrict(m, b);
    TotalUnion(Restrict(m, a), Restrict(m, b));
  }

  lemma WeightOfOne<K>(m: map<K, nat>, k: K)
    requires k in m
    ensures Weight(m, {k}) == m[k]
  {
    assert Restrict(m, {k}) == map[][k := m[k]];
    TotalInsert(map[], k, m[k]);
  }

  lemma WeightAtMost<K>(m: map<K, nat>, s: set<K>)
    ensures Weight(m, s) <= Total(m)
  {
    assert m == Restrict(m, s) + Restrict(m, m.Keys - s);
    TotalUnion(Restrict(m, s), Restrict(m, m.Keys - s));
  }

  lemma {:induction false} TotalPositive<K>(m: map<K, nat>)
    ensures Total(m) > 0 ==> exists k :: k in m && m[k] > 0
    decreases |m|
  {
    if m != map[] {
      var k :| k in m;
      TotalSplit(m, k);
      TotalPositive(m - {k});
    }
  }

  lemma {:induction false} TotalZeroIff<K>(m: map<K, nat>)
    ensures Total(m) == 0 <==> forall k :: k in m ==> m[k] == 0
  {
    TotalPositive(m);
    forall k | k in m ensures Total(m) >= m[k] {
      TotalSplit(m, k);
    }
  }

  lemma WeightMonotone<K>(m: map<K, nat>, a: set<K>, b: set<K>)
    requires a <= b
    ensures Weight(m, a) <= Weight(m, b)
  {
    assert b == a + (b - a);
    WeightUnion(m, a, b - a);
  }
}
