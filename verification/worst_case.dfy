/** The Worst Case Hold'em classifier: ten pattern categories of a five-card
    hand, ordered from least to most unlucky, and the cascade that tests them
    from the most unlucky down, the first match winning. */
module WorstCase {
  import opened Cards
  import opened Multiplicity
  import opened Results

  /** `WorstCaseHandType`, least unlucky first. */
  datatype WorstCaseHandType =
    | LowCard
    | BrokenPair
    | FauxFlush
    | MirrorHand
    | ColorDisassociate
    | Gap
    | AlmostFullHouse
    | ColorClash
    | DeadRoyal
    | PerfectMisdeal

  /** The enum's integer value, which orders the categories. */
  function Value(t: WorstCaseHandType): (v: int)
    ensures 1 <= v <= 10
  {
    match t
    case LowCard => 1
    case BrokenPair => 2
    case FauxFlush => 3
    case MirrorHand => 4
    case ColorDisassociate => 5
    case Gap => 6
    case AlmostFullHouse => 7
    case ColorClash => 8
    case DeadRoyal => 9
    case PerfectMisdeal => 10
  }

  /** Distinct categories have distinct values, so the values order them totally. */
  lemma ValueInjective(a: WorstCaseHandType, b: WorstCaseHandType)
    ensures Value(a) == Value(b) <==> a == b
  {
  }

  // ---------------------------------------------------------------------
  // The patterns. Ranks lie in 2..14 and suits in 0..3, so a Counter's
  // values are the multiplicities `Profile` collects over those domains.
  // Two lists sort to the same list exactly when they are rearrangements
  // of each other, so `sorted(counts.values()) == [...]` compares multisets.

  /** `_is_faux_flush`: four cards of one suit and one of another. */
  predicate IsFauxFlush(suits: seq<int>) {
    Profile(suits, 3, 0) == multiset{1, 4}
  }

  /** `_is_gap`, given `sorted(set(ranks))`: five ranks, each two above the last. */
  predicate IsGap(uniqueRanks: seq<int>) {
    |uniqueRanks| == 5 && forall i :: 0 <= i < 4 ==> uniqueRanks[i + 1] - uniqueRanks[i] == 2
  }

  /** `_is_mirror_hand`: two ranks held twice and one held once. */
  predicate IsMirrorHand(ranks: seq<int>) {
    Profile(ranks, 14, 2) == multiset{1, 2, 2}
  }

  /** `_is_color_disassociate`: every suit present, five distinct ranks,
      and `max(ranks) <= 9` (the ranks are not empty once five are distinct). */
  predicate IsColorDisassociate(ranks: seq<int>, suits: seq<int>) {
    && SetOf(suits) == {0, 1, 2, 3}
    && |SetOf(ranks)| == 5
    && forall i :: 0 <= i < |ranks| ==> ranks[i] <= 9
  }

  /** `_is_broken_pair`: exactly one rank held twice, that rank at most 9,
      and the multiplicities 2, 1, 1, 1. */
  predicate IsBrokenPair(ranks: seq<int>) {
    var pairRanks := WithCount(ranks, 2, 14, 2);
    && |pairRanks| == 1
    && pairRanks[0] <= 9
    && Profile(ranks, 14, 2) == multiset{2, 1, 1, 1}
  }

  /** `set(ranks) == {10, 11, 12, 13, 14}`. */
  predicate IsRoyalRanks(ranks: seq<int>) {
    SetOf(ranks) == {10, 11, 12, 13, 14}
  }

  /** `_is_dead_royal`: the royal ranks in more than one suit. */
  predicate IsDeadRoyal(ranks: seq<int>, suits: seq<int>) {
    IsRoyalRanks(ranks) && |SetOf(suits)| > 1 && |SetOf(suits)| != 1
  }

  // ---------------------------------------------------------------------
  // Color clash

  /** `by_rank[r]`: the suits of the cards of rank `r`, in hand order, over
      `zip(ranks, suits)` (which stops at the shorter list). */
  function SuitsOfRank(ranks: seq<int>, suits: seq<int>, r: int): seq<int>
    decreases |ranks|
  {
    var n := if |ranks| < |suits| then |ranks| else |suits|;
    if n == 0 then []
    else SuitsOfRank(ranks[..n - 1], suits[..n - 1], r) + (if ranks[n - 1] == r then [suits[n - 1]] else [])
  }

  /** `main_suit`: the suit held four times. Only a faux flush gets here, and
      there the largest count is unique, so the order in which `max` meets
      the suits cannot matter. */
  function MainSuit(suits: seq<int>): int
    requires IsFauxFlush(suits)
  {
    ProfileMultiplicity(suits, 3, 0, 4);
    WithCount(suits, 4, 3, 0)[0]
  }

  /** `off_suit`: the other suit present, held once. */
  function OffSuit(suits: seq<int>): int
    requires IsFauxFlush(suits)
  {
    ProfileMultiplicity(suits, 3, 0, 1);
    WithCount(suits, 1, 3, 0)[0]
  }

  /** A list of suits that is a pair split between the main and the off suit. */
  predicate SplitPair(ss: seq<int>, main: int, off: int) {
    |ss| == 2 && main in ss && off in ss
  }

  /** `_is_color_clash`: a faux flush in which some rank's two cards are
      split between the main suit and the off suit. */
  predicate IsColorClash(ranks: seq<int>, suits: seq<int>) {
    && IsFauxFlush(suits)
    && exists i :: 0 <= i < |ranks| && i < |suits| && SplitPair(SuitsOfRank(ranks, suits, ranks[i]), MainSuit(suits), OffSuit(suits))
  }

  lemma SuitsOfRankSnoc(ranks: seq<int>, suits: seq<int>, i: int, r: int)
    requires 0 <= i < |ranks| && i < |suits|
    ensures SuitsOfRank(ranks[..i + 1], suits[..i + 1], r)
         == SuitsOfRank(ranks[..i], suits[..i], r) + (if ranks[i] == r then [suits[i]] else [])
  {
    assert ranks[..i + 1][..i] == ranks[..i] && suits[..i + 1][..i] == suits[..i];
  }

  /** Only the zipped prefix matters. */
  lemma SuitsOfRankZipped(ranks: seq<int>, suits: seq<int>, n: int, r: int)
    requires n == if |ranks| < |suits| then |ranks| else |suits|
    ensures SuitsOfRank(ranks, suits, r) == SuitsOfRank(ranks[..n], suits[..n], r)
  {
    if n > 0 {
      assert ranks[..n][..n - 1] == ranks[..n - 1] && suits[..n][..n - 1] == suits[..n - 1];
    }
  }

  /** A rank absent from the hand has no suits listed. */
  lemma {:induction false} SuitsOfAbsentRank(ranks: seq<int>, suits: seq<int>, r: int)
    requires r !in ranks
    ensures SuitsOfRank(ranks, suits, r) == []
    decreases |ranks|
  {
    var n := if |ranks| < |suits| then |ranks| else |suits|;
    if n > 0 {
      assert r !in ranks[..n - 1];
      SuitsOfAbsentRank(ranks[..n - 1], suits[..n - 1], r);
    }
  }

  /** The `by_rank` loop of `_is_color_clash`: each rank of the zipped
      prefix maps to the suits of its cards, in hand order. */
  method GroupByRank(ranks: seq<int>, suits: seq<int>) returns (byRank: map<int, seq<int>>)
    ensures forall r :: r in byRank <==> exists i :: 0 <= i < |ranks| && i < |suits| && ranks[i] == r
    ensures forall r :: r in byRank ==> byRank[r] == SuitsOfRank(ranks, suits, r)
  {
    var n := if |ranks| < |suits| then |ranks| else |suits|;
    byRank := map[];
    var i := 0;
    while i < n
      invariant 0 <= i <= n
      invariant Grouped(ranks[..i], suits[..i], byRank)
    {
      var r := ranks[i];
      GroupStep(ranks, suits, i, byRank);
      byRank := byRank[r := (if r in byRank then byRank[r] else []) + [suits[i]]];
      i := i + 1;
    }
    GroupedZipped(ranks, suits, n, byRank);
  }

  /** `byRank` groups the suits of the zipped `ranks` and `suits` by rank. */
  ghost predicate Grouped(ranks: seq<int>, suits: seq<int>, byRank: map<int, seq<int>>) {
    && (forall r :: r in byRank <==> r in ranks)
    && (forall r :: r in byRank ==> byRank[r] == SuitsOfRank(ranks, suits, r))
  }

  /** Appending the suit of card `i` under its rank extends the grouping of
      the first `i` cards to the first `i + 1`. */
  lemma GroupStep(ranks: seq<int>, suits: seq<int>, i: int, byRank: map<int, seq<int>>)
    requires 0 <= i < |ranks| && i < |suits|
    requires Grouped(ranks[..i], suits[..i], byRank)
    ensures var r := ranks[i];
      Grouped(ranks[..i + 1], suits[..i + 1], byRank[r := (if r in byRank then byRank[r] else []) + [suits[i]]])
  {
    var r := ranks[i];
    var grown := byRank[r := (if r in byRank then byRank[r] else []) + [suits[i]]];
    assert ranks[..i + 1] == ranks[..i] + [r];
    forall q ensures q in grown <==> q in ranks[..i + 1] {
      assert q in ranks[..i + 1] <==> q in ranks[..i] || q == r;
    }
    forall q | q in grown ensures grown[q] == SuitsOfRank(ranks[..i + 1], suits[..i + 1], q) {
      SuitsOfRankSnoc(ranks, suits, i, q);
      if q == r && r !in byRank {
        SuitsOfAbsentRank(ranks[..i], suits[..i], r);
      }
    }
  }

  /** The grouping of the zipped prefix is the grouping of the whole zip. */
  lemma GroupedZipped(ranks: seq<int>, suits: seq<int>, n: int, byRank: map<int, seq<int>>)
    requires n == (if |ranks| < |suits| then |ranks| else |suits|)
    requires Grouped(ranks[..n], suits[..n], byRank)
    ensures forall r :: r in byRank <==> exists i :: 0 <= i < |ranks| && i < |suits| && ranks[i] == r
    ensures forall r :: r in byRank ==> byRank[r] == SuitsOfRank(ranks, suits, r)
  {
    forall q ensures SuitsOfRank(ranks, suits, q) == SuitsOfRank(ranks[..n], suits[..n], q) {
      SuitsOfRankZipped(ranks, suits, n, q);
    }
    forall q ensures q in ranks[..n] <==> exists i :: 0 <= i < |ranks| && i < |suits| && ranks[i] == q {
      if q in ranks[..n] {
        var i :| 0 <= i < n && ranks[..n][i] == q;
      }
      if exists i :: 0 <= i < |ranks| && i < |suits| && ranks[i] == q {
        var i :| 0 <= i < |ranks| && i < |suits| && ranks[i] == q;
        assert ranks[..n][i] == q;
      }
    }
  }

  /** A non-empty set has a member to pick. */
  lemma HasMember(s: set<int>)
    requires s != {}
    ensures exists x :: x in s
  {
    if forall x :: x !in s {
      assert false;
    }
  }

  /** The scan over the `by_rank` lists: is any of them a split pair? */
  method FindSplitPair(byRank: map<int, seq<int>>, main: int, off: int) returns (found: bool)
    ensures found <==> exists r :: r in byRank && SplitPair(byRank[r], main, off)
  {
    var keys := byRank.Keys;
    while keys != {}
      invariant keys <= byRank.Keys
      invariant forall r :: r in byRank.Keys - keys ==> !SplitPair(byRank[r], main, off)
      decreases |keys|
    {
      HasMember(keys);
      var r :| r in keys;
      if |byRank[r]| == 2 && main in byRank[r] && off in byRank[r] {
        return true;
      }
      keys := keys - {r};
    }
    return false;
  }

  /** `_is_color_clash`: the faux-flush test, the main and off suits, the
      `by_rank` lists, then the scan of those lists for a split pair. */
  method ColorClashScan(ranks: seq<int>, suits: seq<int>) returns (b: bool)
    ensures b == IsColorClash(ranks, suits)
  {
    if !IsFauxFlush(suits) {
      return false;
    }
    var main := MainSuit(suits);
    var off := OffSuit(suits);
    var byRank := GroupByRank(ranks, suits);
    b := FindSplitPair(byRank, main, off);
    if b {
      var r :| r in byRank && SplitPair(byRank[r], main, off);
      var i :| 0 <= i < |ranks| && i < |suits| && ranks[i] == r;
      assert SplitPair(SuitsOfRank(ranks, suits, ranks[i]), main, off);
    } else {
      forall i | 0 <= i < |ranks| && i < |suits|
        ensures !SplitPair(SuitsOfRank(ranks, suits, ranks[i]), main, off)
      {
        assert ranks[i] in byRank;
      }
    }
  }

  // ---------------------------------------------------------------------
  // What the patterns mean, in terms of the counts of single values

  /** In a faux flush of suits 0..3 the main suit is the one held four
      times, the off suit the one held once, and no other suit is held. */
  lemma FauxFlushSuits(suits: seq<int>)
    requires InRange(suits, 0, 3) && IsFauxFlush(suits)
    ensures 0 <= MainSuit(suits) <= 3 && 0 <= OffSuit(suits) <= 3
    ensures forall s :: Count(suits, s) == 4 <==> s == MainSuit(suits)
    ensures forall s :: Count(suits, s) == 1 <==> s == OffSuit(suits)
    ensures forall s :: s != MainSuit(suits) && s != OffSuit(suits) ==> Count(suits, s) == 0
  {
    var main, off := MainSuit(suits), OffSuit(suits);
    FauxFlushProfile(suits, 3, 0);
    forall s | Count(suits, s) > 0 ensures 0 <= s <= 3 {
      CountPositive(suits, s);
    }
  }

  /** The same over any suit range [lo, hi]. */
  lemma FauxFlushProfile(xs: seq<int>, hi: int, lo: int)
    requires Profile(xs, hi, lo) == multiset{1, 4}
    ensures |WithCount(xs, 4, hi, lo)| == 1 && |WithCount(xs, 1, hi, lo)| == 1
    ensures lo <= WithCount(xs, 4, hi, lo)[0] <= hi && lo <= WithCount(xs, 1, hi, lo)[0] <= hi
    ensures forall v :: lo <= v <= hi ==> (Count(xs, v) == 4 <==> v == WithCount(xs, 4, hi, lo)[0])
    ensures forall v :: lo <= v <= hi ==> (Count(xs, v) == 1 <==> v == WithCount(xs, 1, hi, lo)[0])
    ensures forall v :: lo <= v <= hi && v != WithCount(xs, 4, hi, lo)[0] && v != WithCount(xs, 1, hi, lo)[0] ==> Count(xs, v) == 0
  {
    ProfileSingle(xs, hi, lo, 4);
    ProfileSingle(xs, hi, lo, 1);
    forall v | lo <= v <= hi && v != WithCount(xs, 4, hi, lo)[0] && v != WithCount(xs, 1, hi, lo)[0]
      ensures Count(xs, v) == 0
    {
      var c := Count(xs, v);
      if c > 0 {
        ProfileNone(xs, hi, lo, c);
      }
    }
  }

  /** Suit `a` held four times, suit `b` once, and the other suits of 0..3
      not at all. */
  predicate FourAndOneSuits(suits: seq<int>, a: int, b: int) {
    && 0 <= a <= 3 && 0 <= b <= 3
    && Count(suits, a) == 4 && Count(suits, b) == 1
    && forall c :: 0 <= c <= 3 && c != a && c != b ==> Count(suits, c) == 0
  }

  /** `_is_faux_flush` over suits 0..3: one suit held four times, another
      once, and the other two not at all. */
  lemma FauxFlushSpec(suits: seq<int>)
    requires InRange(suits, 0, 3)
    ensures IsFauxFlush(suits) <==> exists a, b :: FourAndOneSuits(suits, a, b)
  {
    if IsFauxFlush(suits) {
      FauxFlushSuits(suits);
      assert FourAndOneSuits(suits, MainSuit(suits), OffSuit(suits));
    }
    if exists a, b :: FourAndOneSuits(suits, a, b) {
      var a, b :| FourAndOneSuits(suits, a, b);
      FourAndOne(suits, 3, 0, a, b);
    }
  }

  /** A value held four times, another once and the rest of [lo, hi] absent
      give the profile {1, 4}. */
  lemma FourAndOne(xs: seq<int>, hi: int, lo: int, a: int, b: int)
    requires lo <= a <= hi && lo <= b <= hi
    requires Count(xs, a) == 4 && Count(xs, b) == 1
    requires forall c :: lo <= c <= hi && c != a && c != b ==> Count(xs, c) == 0
    ensures Profile(xs, hi, lo) == multiset{1, 4}
  {
    var m: multiset<nat> := multiset{1, 4};
    forall c: nat | c > 0 ensures m[c] == |WithCount(xs, c, hi, lo)| {
      if c == 4 {
        WithCountOnly(xs, c, hi, lo, a);
      } else if c == 1 {
        WithCountOnly(xs, c, hi, lo, b);
      } else {
        WithCountNone(xs, c, hi, lo);
      }
    }
    ProfileFromCounts(xs, hi, lo, m);
  }

  /** The five ranks `lo`, `lo + 2`, ..., `lo + 8`. */
  function StepTwo(lo: int): seq<int> {
    [lo, lo + 2, lo + 4, lo + 6, lo + 8]
  }

  /** `_is_gap(sorted(set(ranks)))` over ranks in [lo, hi]: the hand's set
      of ranks is five ranks in steps of two. */
  lemma GapSpec(ranks: seq<int>, lo: int, hi: int)
    requires InRange(ranks, lo, hi)
    ensures IsGap(UniqUp(ranks, lo, hi)) <==> exists r :: SetOf(ranks) == SetOf(StepTwo(r))
  {
    var u := UniqUp(ranks, lo, hi);
    UniqUpSpec(ranks, lo, hi);
    if IsGap(u) {
      var r := u[0];
      assert u[1] - u[0] == 2 && u[2] - u[1] == 2 && u[3] - u[2] == 2 && u[4] - u[3] == 2;
      assert u == StepTwo(r);
      assert SetOf(ranks) == SetOf(StepTwo(r)) by {
        forall v ensures v in SetOf(ranks) <==> v in SetOf(StepTwo(r)) {
          if v in ranks {
            var k :| 0 <= k < |ranks| && ranks[k] == v;
          }
        }
      }
    }
    if exists r :: SetOf(ranks) == SetOf(StepTwo(r)) {
      var r :| SetOf(ranks) == SetOf(StepTwo(r));
      forall v ensures v in u <==> v in StepTwo(r) {
        if v in StepTwo(r) {
          assert v in SetOf(StepTwo(r));
          var k :| 0 <= k < |ranks| && ranks[k] == v;
        }
        if v in u {
          assert v in SetOf(ranks);
        }
      }
      AscendingUnique(u, StepTwo(r));
    }
  }

  /** `_is_broken_pair`: the test that exactly one rank is paired adds
      nothing to the multiplicities 2, 1, 1, 1, so a broken pair is that
      shape with its pair of rank at most 9. */
  lemma BrokenPairSpec(ranks: seq<int>)
    ensures IsBrokenPair(ranks) <==>
      Profile(ranks, 14, 2) == multiset{2, 1, 1, 1} && exists r :: LowPair(ranks, r)
  {
    if Profile(ranks, 14, 2) == multiset{2, 1, 1, 1} {
      PairRank(ranks, 14, 2);
      var p := WithCount(ranks, 2, 14, 2)[0];
      if p <= 9 {
        assert LowPair(ranks, p);
      }
    }
  }

  /** A rank in 2..9 held exactly twice. */
  predicate LowPair(ranks: seq<int>, r: int) {
    2 <= r <= 9 && Count(ranks, r) == 2
  }

  lemma PairRank(xs: seq<int>, hi: int, lo: int)
    requires Profile(xs, hi, lo) == multiset{2, 1, 1, 1}
    ensures |WithCount(xs, 2, hi, lo)| == 1 && lo <= WithCount(xs, 2, hi, lo)[0] <= hi
    ensures forall v :: lo <= v <= hi ==> (Count(xs, v) == 2 <==> v == WithCount(xs, 2, hi, lo)[0])
  {
    ProfileSingle(xs, hi, lo, 2);
  }

  lemma CountSnoc(xs: seq<int>, x: int, v: int)
    ensures Count(xs + [x], v) == Count(xs, v) + (if x == v then 1 else 0)
  {
    CountConcat(xs, [x], v);
  }

  /** Each card of rank `r` contributes one suit to `by_rank[r]`. */
  lemma {:induction false} SuitsOfRankLength(ranks: seq<int>, suits: seq<int>, r: int)
    requires |ranks| <= |suits|
    ensures |SuitsOfRank(ranks, suits, r)| == Count(ranks, r)
    decreases |ranks|
  {
    var n := |ranks|;
    if n > 0 {
      SuitsOfRankLength(ranks[..n - 1], suits[..n - 1], r);
      CountSnoc(ranks[..n - 1], ranks[n - 1], r);
      assert ranks[..n - 1] + [ranks[n - 1]] == ranks;
    }
  }

  /** `by_rank[r]` lists exactly the suits of the cards of rank `r`. */
  lemma {:induction false} SuitsOfRankMember(ranks: seq<int>, suits: seq<int>, r: int, s: int)
    requires |ranks| <= |suits|
    ensures s in SuitsOfRank(ranks, suits, r) <==> exists i :: 0 <= i < |ranks| && ranks[i] == r && suits[i] == s
    decreases |ranks|
  {
    var n := |ranks|;
    if n > 0 {
      SuitsOfRankMember(ranks[..n - 1], suits[..n - 1], r, s);
      if exists i :: 0 <= i < n && ranks[i] == r && suits[i] == s {
        var i :| 0 <= i < n && ranks[i] == r && suits[i] == s;
        if i < n - 1 {
          assert ranks[..n - 1][i] == r && suits[..n - 1][i] == s;
        }
      }
    }
  }

  /** `_is_color_clash` over suits 0..3 and as many ranks as suits: a faux
      flush in which some rank is held exactly twice, once in the suit held
      four times and once in the suit held once. */
  lemma ColorClashSpec(ranks: seq<int>, suits: seq<int>)
    requires |ranks| == |suits| && InRange(suits, 0, 3)
    ensures IsColorClash(ranks, suits) <==>
      && IsFauxFlush(suits)
      && exists i, j :: && 0 <= i < |ranks| && 0 <= j < |ranks| && ranks[i] == ranks[j]
                        && Count(ranks, ranks[i]) == 2
                        && Count(suits, suits[i]) == 4 && Count(suits, suits[j]) == 1
  {
    if IsFauxFlush(suits) {
      FauxFlushSuits(suits);
      var main, off := MainSuit(suits), OffSuit(suits);
      if IsColorClash(ranks, suits) {
        var k :| 0 <= k < |ranks| && SplitPair(SuitsOfRank(ranks, suits, ranks[k]), main, off);
        SuitsOfRankLength(ranks, suits, ranks[k]);
        SuitsOfRankMember(ranks, suits, ranks[k], main);
        SuitsOfRankMember(ranks, suits, ranks[k], off);
        var i :| 0 <= i < |ranks| && ranks[i] == ranks[k] && suits[i] == main;
        var j :| 0 <= j < |ranks| && ranks[j] == ranks[k] && suits[j] == off;
        assert Count(suits, suits[i]) == 4 && Count(suits, suits[j]) == 1;
      }
      if exists i, j :: && 0 <= i < |ranks| && 0 <= j < |ranks| && ranks[i] == ranks[j]
                        && Count(ranks, ranks[i]) == 2
                        && Count(suits, suits[i]) == 4 && Count(suits, suits[j]) == 1
      {
        var i, j :| && 0 <= i < |ranks| && 0 <= j < |ranks| && ranks[i] == ranks[j]
                    && Count(ranks, ranks[i]) == 2
                    && Count(suits, suits[i]) == 4 && Count(suits, suits[j]) == 1;
        SuitsOfRankLength(ranks, suits, ranks[i]);
        SuitsOfRankMember(ranks, suits, ranks[i], main);
        SuitsOfRankMember(ranks, suits, ranks[i], off);
        assert SplitPair(SuitsOfRank(ranks, suits, ranks[i]), main, off);
      }
    }
  }

  // ---------------------------------------------------------------------
  // The cascade

  /** The outcome of each pattern test of `classify_worst_case_hand`. Every
      test is total and has no effect, so computing them all and then
      taking the first that holds returns what the early returns return. */
  datatype Patterns = Patterns(
    perfectMisdeal: bool,
    deadRoyal: bool,
    colorClash: bool,
    almostFullHouse: bool,
    gap: bool,
    colorDisassociate: bool,
    mirrorHand: bool,
    fauxFlush: bool,
    brokenPair: bool)

  /** The tests, on the hand's ranks and suits: a royal flush is the royal
      ranks with `len(suits_counter) == 1`, an almost full house has rank
      multiplicities 3, 1, 1, and the gap test reads `sorted(set(ranks))`. */
  function PatternsOf(ranks: seq<int>, suits: seq<int>): Patterns {
    var isFlush := |SetOf(suits)| == 1;
    Patterns(
      IsRoyalRanks(ranks) && isFlush,
      IsDeadRoyal(ranks, suits),
      IsColorClash(ranks, suits),
      Profile(ranks, 14, 2) == multiset{3, 1, 1},
      IsGap(UniqUp(ranks, 2, 14)),
      IsColorDisassociate(ranks, suits),
      IsMirrorHand(ranks),
      IsFauxFlush(suits),
      IsBrokenPair(ranks))
  }

  /** The order of the early returns; LOW_CARD catches every hand no
      pattern claims. */
  function Cascade(p: Patterns): WorstCaseHandType {
    if p.perfectMisdeal then PerfectMisdeal
    else if p.deadRoyal then DeadRoyal
    else if p.colorClash then ColorClash
    else if p.almostFullHouse then AlmostFullHouse
    else if p.gap then Gap
    else if p.colorDisassociate then ColorDisassociate
    else if p.mirrorHand then MirrorHand
    else if p.fauxFlush then FauxFlush
    else if p.brokenPair then BrokenPair
    else LowCard
  }

  const WRONG_SIZE: string := "Worst Case evaluation expects exactly 5 cards"

  /** `classify_worst_case_hand`: the size check, then the cascade over the
      hand's ranks and suits. The result always holds a category. */
  function ClassifyWorstCaseHand(cards: seq<Card>): (r: Result<WorstCaseHandType>)
    ensures r.Err? <==> |cards| != 5
    ensures r.Err? ==> r.error == ValueError(WRONG_SIZE)
  {
    if |cards| != 5 then Err(ValueError(WRONG_SIZE)) else Ok(Cascade(PatternsOf(Ranks(cards), Suits(cards))))
  }

  /** Whether the tests credit the hand with category `t`; every hand shows
      LOW_CARD. */
  predicate Shows(t: WorstCaseHandType, p: Patterns) {
    match t
    case PerfectMisdeal => p.perfectMisdeal
    case DeadRoyal => p.deadRoyal
    case ColorClash => p.colorClash
    case AlmostFullHouse => p.almostFullHouse
    case Gap => p.gap
    case ColorDisassociate => p.colorDisassociate
    case MirrorHand => p.mirrorHand
    case FauxFlush => p.fauxFlush
    case BrokenPair => p.brokenPair
    case LowCard => true
  }

  /** The cascade tests the categories in descending enum order, so a hand
      gets the most unlucky category whose pattern it shows: a category is
      chosen exactly when it shows and no more unlucky one does. */
  lemma CascadeMostUnlucky(p: Patterns, t: WorstCaseHandType)
    ensures Cascade(p) == t <==> Shows(t, p) && forall u :: Value(u) > Value(t) ==> !Shows(u, p)
  {
    var c := Cascade(p);
    assert Shows(c, p);
    forall u | Value(u) > Value(c) ensures !Shows(u, p) {
    }
    if c != t {
      ValueInjective(c, t);
    }
  }

  /** `classify_worst_case_hand` on five cards returns the most unlucky
      category whose pattern the hand shows. */
  lemma ClassifyMostUnlucky(cards: seq<Card>, t: WorstCaseHandType)
    requires |cards| == 5
    ensures var p := PatternsOf(Ranks(cards), Suits(cards));
      ClassifyWorstCaseHand(cards) == Ok(t) <==> Shows(t, p) && forall u :: Value(u) > Value(t) ==> !Shows(u, p)
  {
    CascadeMostUnlucky(PatternsOf(Ranks(cards), Suits(cards)), t);
  }

  /** Five cards of the royal ranks are a PERFECT_MISDEAL in one suit and a
      DEAD_ROYAL in several. */
  lemma RoyalRanks(cards: seq<Card>)
    requires |cards| == 5 && IsRoyalRanks(Ranks(cards))
    ensures ClassifyWorstCaseHand(cards) == Ok(PerfectMisdeal) <==> |SetOf(Suits(cards))| == 1
    ensures ClassifyWorstCaseHand(cards) == Ok(DeadRoyal) <==> |SetOf(Suits(cards))| > 1
  {
    var suits := Suits(cards);
    assert suits[0] in SetOf(suits);
  }
}
