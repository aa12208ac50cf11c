/** `itertools.combinations`: the k-element subsequences of a sequence, in
    lexicographic order of their positions, and the binomial coefficient that
    counts them. */
module Combinatorics {

  /** `[x] + c` for every `c` in `cs`, in order. */
  function Prepend<T>(x: T, cs: seq<seq<T>>): (r: seq<seq<T>>)
    ensures |r| == |cs|
    ensures forall i :: 0 <= i < |cs| ==> r[i] == [x] + cs[i]
  {
    seq(|cs|, i requires 0 <= i < |cs| => [x] + cs[i])
  }

  /** `list(combinations(s, k))`: every choice containing `s[0]` comes first
      (followed by the choices of `k - 1` from the rest), then the choices of
      `k` from the rest. */
  function Combinations<T>(s: seq<T>, k: nat): seq<seq<T>>
    decreases |s|
  {
    if k == 0 then [[]]
    else if |s| < k then []
    else Prepend(s[0], Combinations(s[1..], k - 1)) + Combinations(s[1..], k)
  }

  /** `c` can be obtained from `s` by deleting elements. */
  predicate SubseqOf<T(==)>(c: seq<T>, s: seq<T>)
    decreases |s|
  {
    if c == [] then true
    else if s == [] then false
    else (c[0] == s[0] && SubseqOf(c[1..], s[1..])) || SubseqOf(c, s[1..])
  }

  predicate NoRepeats<T(==)>(s: seq<T>) {
    forall i, j :: 0 <= i < j < |s| ==> s[i] != s[j]
  }

  /** Over a sequence without repeats, the combinations list every
      `k`-element subsequence exactly once. */
  lemma CombinationsExactlyOnce<T>(s: seq<T>, k: nat)
    requires NoRepeats(s)
    ensures NoRepeats(Combinations(s, k))
    ensures forall c :: c in Combinations(s, k) <==> |c| == k && SubseqOf(c, s)
  {
    CombinationsNoRepeats(s, k);
    forall c ensures c in Combinations(s, k) <==> |c| == k && SubseqOf(c, s) {
      if c in Combinations(s, k) {
        CombinationsSound(s, k, c);
      }
      if |c| == k && SubseqOf(c, s) {
        CombinationsComplete(s, k, c);
      }
    }
  }

  /** Binomial coefficient by Pascal's rule. */
  function Choose(n: nat, k: nat): nat {
    if k == 0 then 1
    else if n == 0 then 0
    else Choose(n - 1, k - 1) + Choose(n - 1, k)
  }

  lemma {:induction false} SubseqLength<T>(c: seq<T>, s: seq<T>)
    requires SubseqOf(c, s)
    ensures |c| <= |s|
    decreases |s|
  {
    if c != [] {
      if c[0] == s[0] && SubseqOf(c[1..], s[1..]) {
        SubseqLength(c[1..], s[1..]);
      } else {
        SubseqLength(c, s[1..]);
      }
    }
  }

  lemma {:induction false} SubseqElements<T>(c: seq<T>, s: seq<T>, x: T)
    requires SubseqOf(c, s)
    requires x in c
    ensures x in s
    decreases |s|
  {
    if c[0] == s[0] && SubseqOf(c[1..], s[1..]) {
      if x != c[0] {
        assert x in c[1..];
        SubseqElements(c[1..], s[1..], x);
      }
    } else {
      SubseqElements(c, s[1..], x);
    }
  }

  /** Every combination is a `k`-element subsequence of `s`. */
  lemma {:induction false} CombinationsSound<T>(s: seq<T>, k: nat, c: seq<T>)
    requires c in Combinations(s, k)
    ensures |c| == k && SubseqOf(c, s)
    decreases |s|
  {
    if k != 0 && |s| >= k {
      var with := Prepend(s[0], Combinations(s[1..], k - 1));
      if c in with {
        var i :| 0 <= i < |with| && with[i] == c;
        CombinationsSound(s[1..], k - 1, Combinations(s[1..], k - 1)[i]);
        assert c[1..] == Combinations(s[1..], k - 1)[i];
      } else {
        CombinationsSound(s[1..], k, c);
      }
    }
  }

  /** Every `k`-element subsequence of `s` is among the combinations. */
  lemma {:induction false} CombinationsComplete<T>(s: seq<T>, k: nat, c: seq<T>)
    requires |c| == k && SubseqOf(c, s)
    ensures c in Combinations(s, k)
    decreases |s|
  {
    SubseqLength(c, s);
    if k != 0 {
      var with := Prepend(s[0], Combinations(s[1..], k - 1));
      if c[0] == s[0] && SubseqOf(c[1..], s[1..]) {
        CombinationsComplete(s[1..], k - 1, c[1..]);
        var i :| 0 <= i < |Combinations(s[1..], k - 1)| && Combinations(s[1..], k - 1)[i] == c[1..];
        assert with[i] == c;
      } else {
        CombinationsComplete(s[1..], k, c);
      }
    }
  }

  /** Over a sequence without repeats, no combination is listed twice. */
  lemma {:induction false} CombinationsNoRepeats<T>(s: seq<T>, k: nat)
    requires NoRepeats(s)
    ensures NoRepeats(Combinations(s, k))
    decreases |s|
  {
    if k != 0 && |s| >= k {
      var rest := s[1..];
      assert NoRepeats(rest);
      var c1 := Combinations(rest, k - 1);
      var c2 := Combinations(rest, k);
      CombinationsNoRepeats(rest, k - 1);
      CombinationsNoRepeats(rest, k);
      var with := Prepend(s[0], c1);
      var all := with + c2;
      forall i, j | 0 <= i < j < |all| ensures all[i] != all[j] {
        if j < |with| {
          assert all[i][1..] == c1[i] && all[j][1..] == c1[j];
        } else if i < |with| {
          assert all[i][0] == s[0];
          CombinationsSound(rest, k, all[j]);
          assert all[j][0] in all[j];
          SubseqElements(all[j], rest, all[j][0]);
          assert s[0] !in rest;
        }
      }
    }
  }

  lemma {:induction false} ChooseAbove(n: nat, k: nat)
    requires n < k
    ensures Choose(n, k) == 0
  {
    if n > 0 {
      ChooseAbove(n - 1, k - 1);
      ChooseAbove(n - 1, k);
    }
  }

  /** There are `Choose(|s|, k)` combinations. */
  lemma {:induction false} CombinationsCount<T>(s: seq<T>, k: nat)
    ensures |Combinations(s, k)| == Choose(|s|, k)
    decreases |s|
  {
    if k != 0 {
      if |s| < k {
        ChooseAbove(|s|, k);
      } else {
        CombinationsCount(s[1..], k - 1);
        CombinationsCount(s[1..], k);
      }
    }
  }

  lemma MulAddLeft(x: int, y: int, z: int)
    ensures x * (y + z) == x * y + x * z
  {
  }

  lemma MulAddRight(x: int, y: int, z: int)
    ensures (x + y) * z == x * z + y * z
  {
  }

  /** The absorption identity `k * C(n, k) == n * C(n - 1, k - 1)`. */
  lemma {:induction false} ChooseAbsorb(n: nat, k: nat)
    requires 1 <= n && 1 <= k
    ensures k * Choose(n, k) == n * Choose(n - 1, k - 1)
  {
    if n == 1 {
      if k >= 2 {
        ChooseAbove(0, k - 1);
        ChooseAbove(0, k);
      }
    } else {
      ChooseAbsorb(n - 1, k);
      var a := Choose(n - 1, k - 1);
      var b := Choose(n - 1, k);
      assert Choose(n, k) == a + b;
      assert k * b == (n - 1) * Choose(n - 2, k - 1);
      if k >= 2 {
        ChooseAbsorb(n - 1, k - 1);
        var c := Choose(n - 2, k - 2);
        var d := Choose(n - 2, k - 1);
        assert a == c + d;
        assert (k - 1) * a == (n - 1) * c;
        MulAddLeft(k, a, b);
        MulAddRight(k - 1, 1, a);
        MulAddLeft(n - 1, c, d);
        MulAddRight(n - 1, 1, a);
        assert k * (a + b) == n * a;
      } else {
        assert a == 1 && Choose(n - 2, k - 1) == 1;
      }
    }
  }

  /** Seven cards have 21 five-card sub-hands. */
  lemma SevenChooseFive()
    ensures Choose(7, 5) == 21
  {
    ChooseAbsorb(3, 1);
    ChooseAbsorb(4, 2);
    ChooseAbsorb(5, 3);
    ChooseAbsorb(6, 4);
    ChooseAbsorb(7, 5);
  }

  /** A 52-card deck has 2,598,960 five-card hands. */
  lemma DeckChooseFive()
    ensures Choose(52, 5) == 2598960
  {
    ChooseAbsorb(48, 1);
    ChooseAbsorb(49, 2);
    ChooseAbsorb(50, 3);
    ChooseAbsorb(51, 4);
    ChooseAbsorb(52, 5);
  }
}
