/** Counting helpers shared by both classifiers: the multiplicity of a value in
    a sequence (what `collections.Counter` gives), and scans over a bounded
    integer domain [lo, hi] that produce the sorted views the classifiers use
    (`sorted(ranks, reverse=True)`, `sorted(set(ranks))`, the ranks having a
    given multiplicity, and the multiset of multiplicities). */
module Multiplicity {

  /** Number of occurrences of `v` in `xs`: `Counter(xs)[v]`. */
  function Count(xs: seq<int>, v: int): (n: nat)
    ensures n <= |xs|
    ensures xs == [] ==> n == 0
  {
    if xs == [] then 0 else (if xs[0] == v then 1 else 0) + Count(xs[1..], v)
  }

  /** `set(xs)`. */
  function SetOf(xs: seq<int>): set<int> {
    set x | x in xs
  }

  predicate Distinct(xs: seq<int>) {
    forall i, j :: 0 <= i < j < |xs| ==> xs[i] != xs[j]
  }

  predicate InRange(xs: seq<int>, lo: int, hi: int) {
    forall i :: 0 <= i < |xs| ==> lo <= xs[i] <= hi
  }

  lemma {:induction false} CountPositive(xs: seq<int>, v: int)
    ensures Count(xs, v) > 0 <==> v in xs
  {
    if xs != [] {
      CountPositive(xs[1..], v);
      assert v in xs <==> xs[0] == v || v in xs[1..] by {
        assert xs == [xs[0]] + xs[1..];
      }
    }
  }

  lemma {:induction false} CountConcat(a: seq<int>, b: seq<int>, v: int)
    ensures Count(a + b, v) == Count(a, v) + Count(b, v)
  {
    if a == [] {
      assert a + b == b;
    } else {
      assert (a + b)[1..] == a[1..] + b;
      CountConcat(a[1..], b, v);
    }
  }

  /** The multiset of a sequence agrees with `Count`. */
  lemma {:induction false} CountIsMultiplicity(xs: seq<int>, v: int)
    ensures multiset(xs)[v] == Count(xs, v)
  {
    if xs != [] {
      assert xs == [xs[0]] + xs[1..];
      CountIsMultiplicity(xs[1..], v);
    }
  }

  lemma {:induction false} CountInDistinct(xs: seq<int>, v: int)
    requires Distinct(xs)
    ensures Count(xs, v) <= 1
  {
    if xs != [] {
      CountInDistinct(xs[1..], v);
      if xs[0] == v {
        CountPositive(xs[1..], v);
      }
    }
  }

  /** Sum of the multiplicities in `xs` of the values listed in `vs`. */
  function Total(xs: seq<int>, vs: seq<int>): nat {
    if vs == [] then 0 else Count(xs, vs[0]) + Total(xs, vs[1..])
  }

  lemma {:induction false} TotalCons(x: int, xs: seq<int>, vs: seq<int>)
    ensures Total([x] + xs, vs) == Count(vs, x) + Total(xs, vs)
  {
    if vs != [] {
      assert ([x] + xs)[1..] == xs;
      TotalCons(x, xs, vs[1..]);
    }
  }

  lemma {:induction false} TotalOfEmpty(vs: seq<int>)
    ensures Total([], vs) == 0
  {
    if vs != [] {
      TotalOfEmpty(vs[1..]);
    }
  }

  /** Distinct values cannot account for more occurrences than there are elements. */
  lemma {:induction false} TotalBound(xs: seq<int>, vs: seq<int>)
    requires Distinct(vs)
    ensures Total(xs, vs) <= |xs|
  {
    if xs == [] {
      TotalOfEmpty(vs);
    } else {
      var rest := xs[1..];
      assert xs == [xs[0]] + rest;
      TotalCons(xs[0], rest, vs);
      CountInDistinct(vs, xs[0]);
      TotalBound(rest, vs);
      assert Total(xs, vs) == Total([xs[0]] + rest, vs);
    }
  }

  /** When every element of `xs` is listed in `vs`, the multiplicities add up to `|xs|`. */
  lemma {:induction false} TotalExact(xs: seq<int>, vs: seq<int>)
    requires Distinct(vs)
    requires forall i :: 0 <= i < |xs| ==> xs[i] in vs
    ensures Total(xs, vs) == |xs|
  {
    if xs == [] {
      TotalOfEmpty(vs);
    } else {
      var rest := xs[1..];
      assert xs == [xs[0]] + rest;
      TotalCons(xs[0], rest, vs);
      CountInDistinct(vs, xs[0]);
      CountPositive(vs, xs[0]);
      assert forall i :: 0 <= i < |rest| ==> rest[i] == xs[i + 1];
      TotalExact(rest, vs);
      assert Total(xs, vs) == Total([xs[0]] + rest, vs);
    }
  }

  /** Every listed value that occurs contributes at least one; `v` contributes all of its count. */
  lemma {:induction false} TotalLower(xs: seq<int>, vs: seq<int>, v: int)
    requires v in vs
    requires forall i :: 0 <= i < |vs| ==> Count(xs, vs[i]) >= 1
    ensures Total(xs, vs) >= |vs| - 1 + Count(xs, v)
  {
    if vs[0] == v {
      TotalAtLeastLength(xs, vs[1..]);
    } else {
      TotalLower(xs, vs[1..], v);
    }
  }

  lemma {:induction false} TotalAtLeastLength(xs: seq<int>, vs: seq<int>)
    requires forall i :: 0 <= i < |vs| ==> Count(xs, vs[i]) >= 1
    ensures Total(xs, vs) >= |vs|
  {
    if vs != [] {
      TotalAtLeastLength(xs, vs[1..]);
    }
  }

  /** Two different values account for at most `|xs|` elements. */
  lemma CountPairBound(xs: seq<int>, a: int, b: int)
    ensures a == b || Count(xs, a) + Count(xs, b) <= |xs|
  {
    if a != b {
      CountPair(xs, a, b);
    }
  }

  lemma CountPair(xs: seq<int>, a: int, b: int)
    requires a != b
    ensures Count(xs, a) + Count(xs, b) <= |xs|
  {
    TotalBound(xs, [a, b]);
    assert [a, b][1..] == [b];
    assert [b][1..] == [];
  }

  /** Three different values account for at most `|xs|` elements. */
  lemma CountTripleBound(xs: seq<int>, a: int, b: int, c: int)
    ensures a == b || a == c || b == c || Count(xs, a) + Count(xs, b) + Count(xs, c) <= |xs|
  {
    if a != b && a != c && b != c {
      CountTriple(xs, a, b, c);
    }
  }

  lemma CountTriple(xs: seq<int>, a: int, b: int, c: int)
    requires a != b && a != c && b != c
    ensures Count(xs, a) + Count(xs, b) + Count(xs, c) <= |xs|
  {
    TotalBound(xs, [a, b, c]);
    assert [a, b, c][1..] == [b, c];
    assert [b, c][1..] == [c];
    assert [c][1..] == [];
  }

  /** If `a` alone does not account for all of `xs`, some element differs from `a`. */
  lemma {:induction false} CountOther(xs: seq<int>, a: int) returns (i: nat)
    requires Count(xs, a) < |xs|
    ensures i < |xs| && xs[i] != a
  {
    if xs[0] != a {
      i := 0;
    } else {
      var j := CountOther(xs[1..], a);
      i := j + 1;
    }
  }

  /** If `a` and `b` together do not account for all of `xs`, some element is neither. */
  lemma {:induction false} CountOther2(xs: seq<int>, a: int, b: int) returns (i: nat)
    requires Count(xs, a) + Count(xs, b) < |xs|
    ensures i < |xs| && xs[i] != a && xs[i] != b
  {
    if xs[0] != a && xs[0] != b {
      i := 0;
    } else {
      var j := CountOther2(xs[1..], a, b);
      i := j + 1;
    }
  }

  /** As many distinct values as elements, all occurring: each occurs exactly once. */
  lemma AllOnce(xs: seq<int>, vs: seq<int>, v: int)
    requires Distinct(vs) && |vs| == |xs|
    requires forall i :: 0 <= i < |vs| ==> Count(xs, vs[i]) >= 1
    requires v in vs
    ensures Count(xs, v) == 1
  {
    TotalLower(xs, vs, v);
    TotalBound(xs, vs);
  }

  /** Values listed once each and occurring once each account for `|vs|` elements. */
  lemma {:induction false} TotalOnes(xs: seq<int>, vs: seq<int>)
    requires forall i :: 0 <= i < |vs| ==> Count(xs, vs[i]) == 1
    ensures Total(xs, vs) == |vs|
  {
    if vs != [] {
      TotalOnes(xs, vs[1..]);
    }
  }

  /** Values occurring at most once each account for at most `|vs|` elements. */
  lemma {:induction false} TotalAtMostLength(xs: seq<int>, vs: seq<int>)
    requires forall i :: 0 <= i < |vs| ==> Count(xs, vs[i]) <= 1
    ensures Total(xs, vs) <= |vs|
  {
    if vs != [] {
      TotalAtMostLength(xs, vs[1..]);
    }
  }

  /** When the listed values account for all of `xs`, nothing else occurs in it. */
  lemma TotalCovers(xs: seq<int>, vs: seq<int>, x: int)
    requires Distinct(vs) && Total(xs, vs) == |xs|
    requires x !in vs
    ensures x !in xs
  {
    var ws := [x] + vs;
    assert ws[1..] == vs;
    forall i, j | 0 <= i < j < |ws| ensures ws[i] != ws[j] {
      if i > 0 {
        assert ws[i] == vs[i - 1] && ws[j] == vs[j - 1];
      } else {
        assert ws[j] == vs[j - 1];
      }
    }
    TotalBound(xs, ws);
    CountPositive(xs, x);
  }

  /** A value at two positions occurs at least twice. */
  lemma CountTwoPositions(s: seq<int>, i: int, j: int)
    requires 0 <= i < j < |s| && s[i] == s[j]
    ensures Count(s, s[i]) >= 2
  {
    assert s == s[..j] + s[j..];
    CountConcat(s[..j], s[j..], s[i]);
    assert s[i] in s[..j];
    assert s[j] == s[j..][0];
    CountPositive(s[..j], s[i]);
    CountPositive(s[j..], s[i]);
  }

  /** A descending sequence without repeated values is strictly descending. */
  lemma DescendingOnce(s: seq<int>)
    requires Descending(s)
    requires forall v :: Count(s, v) <= 1
    ensures StrictlyDescending(s)
  {
    forall i, j | 0 <= i < j < |s| ensures s[i] > s[j] {
      if s[i] == s[j] {
        CountTwoPositions(s, i, j);
      }
    }
  }

  // ---------------------------------------------------------------------
  // Scans over the bounded domain [lo, hi], highest value first

  /** The values of [lo, hi] occurring in `xs`, descending: `sorted(set(xs), reverse=True)`. */
  function UniqDown(xs: seq<int>, hi: int, lo: int): seq<int>
    decreases hi - lo
  {
    if hi < lo then [] else (if Count(xs, hi) > 0 then [hi] else []) + UniqDown(xs, hi - 1, lo)
  }

  predicate StrictlyDescending(s: seq<int>) {
    forall i, j :: 0 <= i < j < |s| ==> s[i] > s[j]
  }

  predicate StrictlyAscending(s: seq<int>) {
    forall i, j :: 0 <= i < j < |s| ==> s[i] < s[j]
  }

  lemma {:induction false} UniqDownSpec(xs: seq<int>, hi: int, lo: int)
    ensures forall v :: v in UniqDown(xs, hi, lo) <==> lo <= v <= hi && v in xs
    ensures StrictlyDescending(UniqDown(xs, hi, lo))
    decreases hi - lo
  {
    if hi >= lo {
      UniqDownSpec(xs, hi - 1, lo);
      CountPositive(xs, hi);
      var head: seq<int> := if Count(xs, hi) > 0 then [hi] else [];
      var tail := UniqDown(xs, hi - 1, lo);
      assert forall k :: 0 <= k < |tail| ==> tail[k] in tail && tail[k] < hi;
    }
  }

  /** The values of [lo, hi] occurring in `xs`, ascending: `sorted(set(xs))`. */
  function UniqUp(xs: seq<int>, lo: int, hi: int): seq<int>
    decreases hi - lo
  {
    if hi < lo then [] else UniqUp(xs, lo, hi - 1) + (if Count(xs, hi) > 0 then [hi] else [])
  }

  lemma {:induction false} UniqUpSpec(xs: seq<int>, lo: int, hi: int)
    ensures forall v :: v in UniqUp(xs, lo, hi) <==> lo <= v <= hi && v in xs
    ensures StrictlyAscending(UniqUp(xs, lo, hi))
    decreases hi - lo
  {
    if hi >= lo {
      UniqUpSpec(xs, lo, hi - 1);
      CountPositive(xs, hi);
      var front := UniqUp(xs, lo, hi - 1);
      forall k | 0 <= k < |front| ensures front[k] < hi {
        assert front[k] in front;
      }
    }
  }

  /** The values of [lo, hi] occurring exactly `c` times in `xs`, descending. */
  function WithCount(xs: seq<int>, c: nat, hi: int, lo: int): seq<int>
    decreases hi - lo
  {
    if hi < lo then [] else (if Count(xs, hi) == c then [hi] else []) + WithCount(xs, c, hi - 1, lo)
  }

  lemma {:induction false} WithCountSpec(xs: seq<int>, c: nat, hi: int, lo: int)
    ensures forall v :: v in WithCount(xs, c, hi, lo) <==> lo <= v <= hi && Count(xs, v) == c
    ensures StrictlyDescending(WithCount(xs, c, hi, lo))
    decreases hi - lo
  {
    if hi >= lo {
      WithCountSpec(xs, c, hi - 1, lo);
      var tail := WithCount(xs, c, hi - 1, lo);
      forall k | 0 <= k < |tail| ensures tail[k] < hi {
        assert tail[k] in tail;
      }
    }
  }

  function Repeat(v: int, n: nat): (r: seq<int>)
    ensures |r| == n && forall i :: 0 <= i < n ==> r[i] == v
  {
    if n == 0 then [] else [v] + Repeat(v, n - 1)
  }

  /** Counting sort, highest first: `sorted(xs, reverse=True)` when `xs` lies in [lo, hi]. */
  function SortDown(xs: seq<int>, hi: int, lo: int): seq<int>
    decreases hi - lo
  {
    if hi < lo then [] else Repeat(hi, Count(xs, hi)) + SortDown(xs, hi - 1, lo)
  }

  predicate Descending(s: seq<int>) {
    forall i, j :: 0 <= i < j < |s| ==> s[i] >= s[j]
  }

  lemma {:induction false} SortDownBounds(xs: seq<int>, hi: int, lo: int)
    ensures InRange(SortDown(xs, hi, lo), lo, hi)
    ensures Descending(SortDown(xs, hi, lo))
    decreases hi - lo
  {
    if hi >= lo {
      SortDownBounds(xs, hi - 1, lo);
    }
  }

  lemma {:induction false} SortDownCount(xs: seq<int>, hi: int, lo: int, v: int)
    ensures Count(SortDown(xs, hi, lo), v) == if lo <= v <= hi then Count(xs, v) else 0
    decreases hi - lo
  {
    if hi >= lo {
      var rest := SortDown(xs, hi - 1, lo);
      CountConcat(Repeat(hi, Count(xs, hi)), rest, v);
      RepeatCount(hi, Count(xs, hi), v);
      SortDownCount(xs, hi - 1, lo, v);
    }
  }

  lemma {:induction false} RepeatCount(x: int, n: nat, v: int)
    ensures Count(Repeat(x, n), v) == if x == v then n else 0
  {
    if n > 0 {
      RepeatCount(x, n - 1, v);
    }
  }

  /** The counting sort is a descending permutation of its input. */
  lemma SortDownIsSortedPermutation(xs: seq<int>, hi: int, lo: int)
    requires InRange(xs, lo, hi)
    ensures Descending(SortDown(xs, hi, lo))
    ensures multiset(SortDown(xs, hi, lo)) == multiset(xs)
    ensures |SortDown(xs, hi, lo)| == |xs|
  {
    SortDownBounds(xs, hi, lo);
    var s := SortDown(xs, hi, lo);
    forall v ensures multiset(s)[v] == multiset(xs)[v] {
      SortDownCount(xs, hi, lo, v);
      CountIsMultiplicity(s, v);
      CountIsMultiplicity(xs, v);
      if !(lo <= v <= hi) {
        CountPositive(xs, v);
      }
    }
    assert |s| == |multiset(s)|;
  }

  /** The multiset of the multiplicities of the values of [lo, hi] that occur
      in `xs`: `sorted(Counter(xs).values())` up to order. */
  function Profile(xs: seq<int>, hi: int, lo: int): multiset<nat>
    decreases hi - lo
  {
    if hi < lo then multiset{}
    else (if Count(xs, hi) > 0 then multiset{Count(xs, hi)} else multiset{}) + Profile(xs, hi - 1, lo)
  }

  /** The multiplicity `c > 0` occurs in the profile once per value of
      [lo, hi] that occurs exactly `c` times; 0 never occurs. */
  lemma {:induction false} ProfileMultiplicity(xs: seq<int>, hi: int, lo: int, c: nat)
    ensures Profile(xs, hi, lo)[0] == 0
    ensures c > 0 ==> Profile(xs, hi, lo)[c] == |WithCount(xs, c, hi, lo)|
    decreases hi - lo
  {
    if hi >= lo {
      ProfileMultiplicity(xs, hi - 1, lo, c);
    }
  }

  /** Two strictly ascending sequences with the same members are equal. */
  lemma {:induction false} AscendingUnique(u: seq<int>, w: seq<int>)
    requires StrictlyAscending(u) && StrictlyAscending(w)
    requires forall v :: v in u <==> v in w
    ensures u == w
    decreases |u|
  {
    assert u != [] ==> u[0] in u;
    assert w != [] ==> w[0] in w;
    if u != [] && w != [] {
      AscendingSameFirst(u, w);
      AscendingSameRest(u, w);
      AscendingUnique(u[1..], w[1..]);
      assert u == [u[0]] + u[1..] && w == [w[0]] + w[1..];
    }
  }

  lemma AscendingSameFirst(u: seq<int>, w: seq<int>)
    requires u != [] && w != [] && StrictlyAscending(u) && StrictlyAscending(w)
    requires forall v :: v in u <==> v in w
    ensures u[0] == w[0]
  {
    assert u[0] in u && w[0] in w;
    var i :| 0 <= i < |w| && w[i] == u[0];
    var j :| 0 <= j < |u| && u[j] == w[0];
    assert w[0] <= w[i] && u[0] <= u[j];
  }

  lemma AscendingSameRest(u: seq<int>, w: seq<int>)
    requires u != [] && w != [] && StrictlyAscending(u) && StrictlyAscending(w)
    requires forall v :: v in u <==> v in w
    requires u[0] == w[0]
    ensures StrictlyAscending(u[1..]) && StrictlyAscending(w[1..])
    ensures forall v :: v in u[1..] <==> v in w[1..]
  {
    forall v ensures v in u[1..] <==> v in w[1..] {
      if v in u[1..] {
        var k :| 1 <= k < |u| && u[k] == v;
        assert v > u[0] && v in w;
      }
      if v in w[1..] {
        var k :| 1 <= k < |w| && w[k] == v;
        assert v > w[0] && v in u;
      }
    }
  }

  /** The values of [lo, hi] held `c` times are exactly `a` when `a` is the
      only one. */
  lemma {:induction false} WithCountOnly(xs: seq<int>, c: nat, hi: int, lo: int, a: int)
    requires lo <= a <= hi && Count(xs, a) == c
    requires forall v :: lo <= v <= hi && v != a ==> Count(xs, v) != c
    ensures WithCount(xs, c, hi, lo) == [a]
    decreases hi - lo
  {
    if hi == a {
      WithCountNone(xs, c, hi - 1, lo);
    } else {
      WithCountOnly(xs, c, hi - 1, lo, a);
    }
  }

  /** No value of [lo, hi] held `c` times: none listed. */
  lemma {:induction false} WithCountNone(xs: seq<int>, c: nat, hi: int, lo: int)
    requires forall v :: lo <= v <= hi ==> Count(xs, v) != c
    ensures WithCount(xs, c, hi, lo) == []
    decreases hi - lo
  {
    if hi >= lo {
      WithCountNone(xs, c, hi - 1, lo);
    }
  }

  /** A multiplicity met once in the profile belongs to a single value. */
  lemma ProfileSingle(xs: seq<int>, hi: int, lo: int, c: nat)
    requires c > 0 && Profile(xs, hi, lo)[c] == 1
    ensures |WithCount(xs, c, hi, lo)| == 1
    ensures lo <= WithCount(xs, c, hi, lo)[0] <= hi
    ensures forall v :: lo <= v <= hi ==> (Count(xs, v) == c <==> v == WithCount(xs, c, hi, lo)[0])
  {
    ProfileMultiplicity(xs, hi, lo, c);
    WithCountSpec(xs, c, hi, lo);
    var w := WithCount(xs, c, hi, lo);
    assert w[0] in w;
    forall v | lo <= v <= hi && Count(xs, v) == c ensures v == w[0] {
      assert v in w;
    }
  }

  /** A multiplicity absent from the profile belongs to no value. */
  lemma ProfileNone(xs: seq<int>, hi: int, lo: int, c: nat)
    requires c > 0 && Profile(xs, hi, lo)[c] == 0
    ensures forall v :: lo <= v <= hi ==> Count(xs, v) != c
  {
    ProfileMultiplicity(xs, hi, lo, c);
    WithCountSpec(xs, c, hi, lo);
    forall v | lo <= v <= hi ensures Count(xs, v) != c {
      assert Count(xs, v) == c ==> v in WithCount(xs, c, hi, lo);
    }
  }

  /** The profile is determined by how many values hold each multiplicity. */
  lemma ProfileFromCounts(xs: seq<int>, hi: int, lo: int, m: multiset<nat>)
    requires m[0] == 0
    requires forall c: nat :: c > 0 ==> m[c] == |WithCount(xs, c, hi, lo)|
    ensures Profile(xs, hi, lo) == m
  {
    forall c: nat ensures Profile(xs, hi, lo)[c] == m[c] {
      ProfileMultiplicity(xs, hi, lo, c);
    }
  }

  /** Sorting values that occur once each gives them strictly descending. */
  lemma SortDownOfDistinct(s: seq<int>, hi: int, lo: int)
    requires InRange(s, lo, hi) && Distinct(s)
    ensures StrictlyDescending(SortDown(s, hi, lo))
    ensures forall v :: v in SortDown(s, hi, lo) <==> v in s
  {
    var t := SortDown(s, hi, lo);
    SortDownBounds(s, hi, lo);
    forall v ensures Count(t, v) == Count(s, v) {
      SortDownCount(s, hi, lo, v);
      if !(lo <= v <= hi) {
        CountPositive(s, v);
      }
    }
    forall v ensures Count(t, v) <= 1 {
      CountInDistinct(s, v);
    }
    DescendingOnce(t);
    forall v ensures v in t <==> v in s {
      CountPositive(t, v);
      CountPositive(s, v);
    }
  }

  /** Sequences with the same multiplicities are rearrangements of each other. */
  lemma SameCountsSameMultiset(a: seq<int>, b: seq<int>)
    requires forall v :: Count(a, v) == Count(b, v)
    ensures multiset(a) == multiset(b)
  {
    forall v ensures multiset(a)[v] == multiset(b)[v] {
      CountIsMultiplicity(a, v);
      CountIsMultiplicity(b, v);
    }
  }
}
