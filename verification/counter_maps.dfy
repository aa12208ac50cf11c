/** Python `Counter`s of integers as maps: a missing key reads as zero, and
    sums of the entries over a list of distinct names. */
module CounterMaps {

  /** A Counter lookup: a missing key reads as zero. */
  function NatAt<K>(m: map<K, nat>, k: K): nat {
    if k in m then m[k] else 0
  }

  /** Each name is listed once. */
  predicate NoDuplicates<K(==)>(names: seq<K>) {
    forall i, j :: 0 <= i < j < |names| ==> names[i] != names[j]
  }

  /** The sum of the entries of the listed names. */
  function SumNat<K>(m: map<K, nat>, names: seq<K>): nat {
    if names == [] then 0 else NatAt(m, names[0]) + SumNat(m, names[1..])
  }

  /** Raising one entry by `d` raises the sum by `d` when its key is listed. */
  lemma {:induction false} SumNatBump<K>(m: map<K, nat>, names: seq<K>, k: K, d: nat)
    requires NoDuplicates(names)
    ensures SumNat(m[k := NatAt(m, k) + d], names) == SumNat(m, names) + (if k in names then d else 0)
  {
    if names != [] {
      assert NoDuplicates(names[1..]);
      SumNatBump(m, names[1..], k, d);
      assert k in names <==> k == names[0] || k in names[1..];
      if k == names[0] {
        assert k !in names[1..];
      }
    }
  }

  /** An empty Counter sums to zero. */
  lemma {:induction false} SumNatEmpty<K>(names: seq<K>)
    ensures SumNat(map[], names) == 0
  {
    if names != [] {
      SumNatEmpty(names[1..]);
    }
  }
}
