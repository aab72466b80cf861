// Sums over finite maps, in whatever order their entries are visited.
module Sums {
  ghost function Sum<K>(m: map<K, nat>): (total: nat)
    decreases |m|
  {
    if m == map[] then 0
    else
      var k :| k in m;
      m[k] + Sum(m - {k})
  }

  /** Any entry may be taken first. */
  lemma {:induction false} SumRemove<K>(m: map<K, nat>, k: K)
    requires k in m
    ensures Sum(m) == m[k] + Sum(m - {k})
    decreases |m|
  {
    var first :| first in m && Sum(m) == m[first] + Sum(m - {first});
    if first != k {
      SumRemove(m - {first}, k);
      SumRemove(m - {k}, first);
      assert m - {first} - {k} == m - {k} - {first};
    }
  }

  /** A part sums to at most the whole, and to less if a positive entry is missing. */
  lemma {:induction false} SumPart<K>(part: map<K, nat>, whole: map<K, nat>)
    requires forall k <- part :: k in whole && part[k] == whole[k]
    ensures Sum(part) <= Sum(whole)
    ensures Sum(part) == Sum(whole) ==> forall k <- whole :: k in part || whole[k] == 0
    decreases |whole|
  {
    if whole == map[] {
      assert part == map[];
    } else {
      var k :| k in whole;
      SumRemove(whole, k);
      if k in part {
        SumRemove(part, k);
        SumPart(part - {k}, whole - {k});
      } else {
        SumPart(part, whole - {k});
      }
      if Sum(part) == Sum(whole) {
        forall x <- whole ensures x in part || whole[x] == 0 {
          assert x == k || x in whole - {k};
        }
      }
    }
  }

  lemma RemoveFromLeft<K, V>(a: map<K, V>, b: map<K, V>, k: K)
    requires k in a && k !in b
    ensures (a + b) - {k} == (a - {k}) + b
  {
  }

  /** The entries of two maps without a common key. */
  lemma {:induction false} SumDisjoint<K>(a: map<K, nat>, b: map<K, nat>)
    requires forall k <- a :: k !in b
    ensures Sum(a + b) == Sum(a) + Sum(b)
    decreases |a|
  {
    if a == map[] {
      assert a + b == b;
    } else {
      hide Sum;
      var k :| k in a;
      SumRemove(a, k);
      SumRemove(a + b, k);
      RemoveFromLeft(a, b, k);
      SumDisjoint(a - {k}, b);
    }
  }

  /** Adds the entries up, in any order. */
  method Total<K(==)>(m: map<K, nat>) returns (total: nat)
    ensures total == Sum(m)
  {
    total := 0;
    var rest := m;
    while rest != map[]
      invariant forall k <- rest :: k in m && rest[k] == m[k]
      invariant total + Sum(rest) == Sum(m)
      decreases |rest|
    {
      var k :| k in rest;
      SumRemove(rest, k);
      total := total + rest[k];
      rest := rest - {k};
    }
  }
}
