/** Shared vocabulary: optional values, codebase hashes and sums over a map's values. */
module Basics {

  datatype Option<+T> = None | Some(value: T)

  // A codebase hash: a fixed-length hex digest, read as a number so that Redis's
  // byte order on members is the numeric order.
  type Hash = nat

  predicate IsLeast(s: set<int>, m: int) {
    m in s && forall x | x in s :: m <= x
  }

  // The smallest element of a non-empty set.
  function MinOf(s: set<int>): (m: int)
    requires s != {}
    ensures IsLeast(s, m)
  {
    LeastExists(s);
    var m :| IsLeast(s, m);
    m
  }

  lemma LeastExists(s: set<int>)
    requires s != {}
    ensures exists m :: IsLeast(s, m)
  {
    var m := FindLeast(s);
  }

  lemma {:induction false} FindLeast(s: set<int>) returns (m: int)
    requires s != {}
    ensures IsLeast(s, m)
    decreases s
  {
    m := AnyOf(s);
    if !IsLeast(s, m) {
      var below := set z | z in s && z < m;
      assert m !in below && below <= s;
      var y :| y in s && y < m;
      assert y in below;
      var m' := FindLeast(below);
      forall z | z in s ensures m' <= z {
        if z < m { assert z in below; }
      }
      m := m';
    }
  }

  lemma AnyOf<X>(s: set<X>) returns (x: X)
    requires s != {}
    ensures x in s
  {
    x :| x in s;
  }

  // The sum of a map's values.
  ghost function Total<K>(m: map<K, nat>): nat
  {
    if m == map[] then 0 else
      var k :| k in m;
      m[k] + Total(m - {k})
  }

  lemma {:induction false} TotalWithout<K>(m: map<K, nat>, k: K)
    requires k in m
    ensures Total(m) == m[k] + Total(m - {k})
    decreases |m|
  {
    var k0 :| k0 in m && Total(m) == m[k0] + Total(m - {k0});
    if k0 != k {
      TotalWithout(m - {k0}, k);
      TotalWithout(m - {k}, k0);
      assert m - {k0} - {k} == m - {k} - {k0};
    }
  }

  lemma TotalUpdate<K>(m: map<K, nat>, k: K, v: nat)
    ensures Total(m[k := v]) == Total(m - {k}) + v
  {
    TotalWithout(m[k := v], k);
    assert m[k := v] - {k} == m - {k};
  }

  lemma TotalRemove<K>(m: map<K, nat>, k: K)
    ensures Total(m - {k}) <= Total(m)
  {
    if k in m {
      TotalWithout(m, k);
    } else {
      assert m - {k} == m;
    }
  }

  // The loop behind sum() over a dictionary's values.
  method SumValues<K>(m: map<K, nat>) returns (total: nat)
    ensures total == Total(m)
  {
    total := 0;
    var rest := m;
    while rest != map[]
      invariant total + Total(rest) == Total(m)
      decreases |rest|
    {
      var k :| k in rest;
      TotalWithout(rest, k);
      total := total + rest[k];
      rest := rest - {k};
    }
  }
}
