/** What the standard evaluator decides, stated independently of how it reads
    `counts_sorted` and `uniq_ranks`: poker's hand categories defined by rank
    multiplicities, runs of consecutive ranks and suits, and the lemmas that
    tie `Evaluate` to them. */
module StandardRanking {
  import opened Cards
  import opened Multiplicity
  import opened Results
  import opened ScoreOrder
  import opened StandardEval

  // ---------------------------------------------------------------------
  // Reference definitions

  /** Some rank occurs exactly `c` times. */
  ghost predicate HasMultiplicity(xs: seq<int>, c: nat) {
    exists r :: Count(xs, r) == c
  }

  /** Two different ranks occur exactly twice each. */
  ghost predicate HasTwoPairs(xs: seq<int>) {
    exists a, b :: a != b && Count(xs, a) == 2 && Count(xs, b) == 2
  }

  /** Five ranks ending at `h` occur once each: `h-4 .. h` for `h` from 6, or
      A-2-3-4-5 (the ace playing low) for `h == 5`. */
  predicate StraightTo(xs: seq<int>, h: int) {
    || (6 <= h <= 14 && forall v :: h - 4 <= v <= h ==> Count(xs, v) == 1)
    || (h == 5 && Count(xs, 14) == 1 && forall v :: 2 <= v <= 5 ==> Count(xs, v) == 1)
  }

  ghost predicate IsStraight(xs: seq<int>) {
    exists h :: StraightTo(xs, h)
  }

  /** All cards share the first card's suit. */
  predicate AllOneSuit(cards: seq<Card>) {
    forall i :: 0 <= i < |cards| ==> cards[i].suit == cards[0].suit
  }

  /** The hand category, strongest test first. */
  ghost function Category(cards: seq<Card>): TypeIndex
    requires |cards| == 5
  {
    var xs := Ranks(cards);
    if IsStraight(xs) && AllOneSuit(cards) then
      (if StraightTo(xs, 14) then ROYAL_FLUSH else STRAIGHT_FLUSH)
    else if HasMultiplicity(xs, 4) then FOUR_OF_A_KIND
    else if HasMultiplicity(xs, 3) && HasMultiplicity(xs, 2) then FULL_HOUSE
    else if AllOneSuit(cards) then FLUSH
    else if IsStraight(xs) then STRAIGHT
    else if HasMultiplicity(xs, 3) then THREE_OF_A_KIND
    else if HasTwoPairs(xs) then TWO_PAIR
    else if HasMultiplicity(xs, 2) then ONE_PAIR
    else HIGH_CARD
  }

  // ---------------------------------------------------------------------
  // Flush

  /** `len(set(suits)) == 1` holds exactly when all suits agree. */
  lemma FlushTest(cards: seq<Card>)
    requires |cards| >= 1
    ensures IsFlush(cards) <==> AllOneSuit(cards)
  {
    var ss := Suits(cards);
    var s0 := cards[0].suit;
    assert ss[0] == s0;
    assert s0 in SetOf(ss);
    if AllOneSuit(cards) {
      assert SetOf(ss) == {s0};
    }
    if IsFlush(cards) {
      var rest := SetOf(ss) - {s0};
      assert SetOf(ss) * {s0} == {s0};
      assert |rest| == 0;
      forall i | 0 <= i < |cards| ensures cards[i].suit == s0 {
        assert ss[i] in SetOf(ss);
        assert ss[i] !in rest;
      }
    }
  }

  // ---------------------------------------------------------------------
  // Straights

  /** Any five strictly descending integers spanning four are consecutive. */
  lemma Consecutive(u: seq<int>)
    requires |u| == 5 && StrictlyDescending(u) && u[0] - u[4] == 4
    ensures forall i :: 0 <= i < 5 ==> u[i] == u[0] - i
  {
    assert u[0] > u[1] > u[2] > u[3] > u[4];
  }

  /** The distinct ranks `u` of `xs`, listed highest first. */
  ghost predicate DistinctRanksOf(xs: seq<int>, u: seq<int>) {
    && (forall v :: v in u <==> 2 <= v <= 14 && v in xs)
    && StrictlyDescending(u)
  }

  lemma UniqDownIsDistinctRanks(xs: seq<int>)
    ensures DistinctRanksOf(xs, UniqDown(xs, 14, 2))
  {
    UniqDownSpec(xs, 14, 2);
  }

  /** Five distinct ranks spanning four make a straight to the highest. */
  lemma RunIsStraight(xs: seq<int>, u: seq<int>)
    requires |xs| == 5 && DistinctRanksOf(xs, u)
    requires |u| == 5 && u[0] - u[4] == 4
    ensures StraightTo(xs, u[0])
  {
    var h := u[0];
    Consecutive(u);
    assert u[0] in u && u[4] in u;
    assert 6 <= h <= 14;
    forall i | 0 <= i < 5 ensures Count(xs, u[i]) >= 1 {
      assert u[i] in u;
      CountPositive(xs, u[i]);
    }
    forall v | h - 4 <= v <= h ensures Count(xs, v) == 1 {
      assert u[h - v] == v;
      AllOnce(xs, u, v);
    }
  }

  /** The distinct ranks A, 5, 4, 3, 2 make the five-high straight. */
  lemma WheelIsStraight(xs: seq<int>, u: seq<int>)
    requires |xs| == 5 && DistinctRanksOf(xs, u)
    requires SetOf(u) == {14, 5, 4, 3, 2}
    ensures StraightTo(xs, 5)
  {
    var vs := [14, 5, 4, 3, 2];
    forall i | 0 <= i < 5 ensures Count(xs, vs[i]) >= 1 {
      assert vs[i] in SetOf(u);
      CountPositive(xs, vs[i]);
    }
    forall v | v in vs ensures Count(xs, v) == 1 {
      AllOnce(xs, vs, v);
    }
    assert Count(xs, 14) == 1;
    forall v | 2 <= v <= 5 ensures Count(xs, v) == 1 {
      assert v in vs;
    }
  }

  /** `StraightHigh` only reports genuine straights. */
  lemma StraightSound(xs: seq<int>)
    requires |xs| == 5 && InRange(xs, 2, 14)
    ensures StraightHigh(xs).Some? ==> StraightTo(xs, StraightHigh(xs).value)
  {
    var uniq := UniqDown(xs, 14, 2);
    UniqDownIsDistinctRanks(xs);
    if |uniq| == 5 && uniq[0] - uniq[4] == 4 {
      RunIsStraight(xs, uniq);
    } else if SetOf(uniq) == {14, 5, 4, 3, 2} {
      WheelIsStraight(xs, uniq);
    }
  }

  /** The distinct ranks of a hand made of the listed ranks only. */
  lemma UniqOfExactly(xs: seq<int>, vs: seq<int>, u: seq<int>)
    requires Distinct(vs) && InRange(vs, 2, 14)
    requires forall i :: 0 <= i < |vs| ==> Count(xs, vs[i]) == 1
    requires |xs| == |vs|
    requires DistinctRanksOf(xs, u)
    ensures forall v :: v in u <==> v in vs
    ensures |u| == |vs|
  {
    TotalOnes(xs, vs);
    forall v ensures v in u <==> v in vs {
      CountPositive(xs, v);
      if v !in vs {
        TotalCovers(xs, vs, v);
      }
    }
    assert Distinct(u);
    forall i | 0 <= i < |u| ensures u[i] in vs {
      assert u[i] in u;
    }
    TotalExact(u, vs);
    forall i | 0 <= i < |vs| ensures Count(u, vs[i]) == 1 {
      assert vs[i] in vs;
      CountPositive(u, vs[i]);
      CountInDistinct(u, vs[i]);
    }
    TotalOnes(u, vs);
  }

  /** The distinct ranks of a straight to `h >= 6` are `h` down to `h - 4`. */
  lemma RunRanks(xs: seq<int>, h: int, u: seq<int>)
    requires |xs| == 5 && DistinctRanksOf(xs, u)
    requires 6 <= h <= 14 && forall v :: h - 4 <= v <= h ==> Count(xs, v) == 1
    ensures |u| == 5 && u[0] == h && u[4] == h - 4
  {
    var vs := [h, h - 1, h - 2, h - 3, h - 4];
    forall i | 0 <= i < 5 ensures Count(xs, vs[i]) == 1 {
      assert h - 4 <= vs[i] <= h;
    }
    UniqOfExactly(xs, vs, u);
    assert h in u && h - 4 in u;
    var j :| 0 <= j < 5 && u[j] == h;
    var k :| 0 <= k < 5 && u[k] == h - 4;
    assert u[0] in vs && u[4] in vs;
  }

  /** The distinct ranks of the wheel are A, 5, 4, 3, 2. */
  lemma WheelRanks(xs: seq<int>, u: seq<int>)
    requires |xs| == 5 && DistinctRanksOf(xs, u)
    requires Count(xs, 14) == 1 && forall v :: 2 <= v <= 5 ==> Count(xs, v) == 1
    ensures |u| == 5 && u[0] == 14 && u[4] == 2
    ensures SetOf(u) == {14, 5, 4, 3, 2}
  {
    var vs := [14, 5, 4, 3, 2];
    WheelCounts(xs);
    UniqOfExactly(xs, vs, u);
    WheelEnds(u);
    WheelSet(u);
  }

  lemma WheelCounts(xs: seq<int>)
    requires Count(xs, 14) == 1 && forall v :: 2 <= v <= 5 ==> Count(xs, v) == 1
    ensures forall i :: 0 <= i < 5 ==> Count(xs, [14, 5, 4, 3, 2][i]) == 1
  {
    forall i | 0 <= i < 5 ensures Count(xs, [14, 5, 4, 3, 2][i]) == 1 {
      assert [14, 5, 4, 3, 2][i] == 14 || 2 <= [14, 5, 4, 3, 2][i] <= 5;
    }
  }

  lemma WheelSet(u: seq<int>)
    requires forall v :: v in u <==> v in [14, 5, 4, 3, 2]
    ensures SetOf(u) == {14, 5, 4, 3, 2}
  {
    forall v ensures v in SetOf(u) <==> v in {14, 5, 4, 3, 2} {
      assert v in u <==> v in [14, 5, 4, 3, 2];
    }
  }

  lemma WheelEnds(u: seq<int>)
    requires |u| == 5 && StrictlyDescending(u)
    requires forall v :: v in u <==> v in [14, 5, 4, 3, 2]
    ensures u[0] == 14 && u[4] == 2
  {
    assert 14 in [14, 5, 4, 3, 2] && 2 in [14, 5, 4, 3, 2];
    var j :| 0 <= j < 5 && u[j] == 14;
    var k :| 0 <= k < 5 && u[k] == 2;
    assert u[0] in u && u[4] in u;
  }

  /** Every straight is found, with its high card. */
  lemma StraightComplete(xs: seq<int>, h: int)
    requires |xs| == 5
    requires StraightTo(xs, h)
    ensures StraightHigh(xs) == Some(h)
  {
    var uniq := UniqDown(xs, 14, 2);
    UniqDownIsDistinctRanks(xs);
    if h >= 6 {
      RunRanks(xs, h, uniq);
    } else {
      WheelRanks(xs, uniq);
    }
  }

  /** Straight detection, both directions: a straight to `h` is reported as
      `h`, and a reported rank is the high card of a straight. */
  lemma StraightTest(xs: seq<int>, h: int)
    requires |xs| == 5 && InRange(xs, 2, 14)
    ensures StraightHigh(xs) == Some(h) <==> StraightTo(xs, h)
    ensures StraightHigh(xs).Some? <==> IsStraight(xs)
  {
    StraightSound(xs);
    if StraightTo(xs, h) {
      StraightComplete(xs, h);
    }
    if IsStraight(xs) {
      var h' :| StraightTo(xs, h');
      StraightComplete(xs, h');
    }
  }

  // ---------------------------------------------------------------------
  // Reading multiplicities off `counts_sorted`

  /** `cs` lists every rank of `xs` that occurs, with its multiplicity, by
      descending `(count, rank)`, as `counts_sorted` does. */
  ghost predicate GroupsOf(xs: seq<int>, cs: seq<Group>) {
    && Indexable(|xs|, cs)
    && GroupOrdered(cs)
    && (forall g :: g in cs <==> g.count >= 1 && Count(xs, g.rank) == g.count)
  }

  lemma CountsSortedGroups(xs: seq<int>)
    requires |xs| >= 1 && InRange(xs, 2, 14)
    ensures GroupsOf(xs, CountsSorted(xs))
  {
    CountsSortedShape(xs);
    forall g ensures g in CountsSorted(xs) <==> g.count >= 1 && Count(xs, g.rank) == g.count {
      CountsSortedMembers(xs, g);
    }
  }

  lemma GroupAt(xs: seq<int>, cs: seq<Group>, i: int)
    requires GroupsOf(xs, cs) && 0 <= i < |cs|
    ensures cs[i].count >= 1 && Count(xs, cs[i].rank) == cs[i].count
  {
    assert cs[i] in cs;
  }

  /** The first two items are for different ranks. */
  lemma FirstTwoDiffer(xs: seq<int>, cs: seq<Group>)
    requires GroupsOf(xs, cs) && |cs| >= 2
    ensures cs[0].rank != cs[1].rank && cs[1].count <= cs[0].count
  {
    GroupAt(xs, cs, 0);
    GroupAt(xs, cs, 1);
  }

  /** The first item has the largest multiplicity. */
  lemma TopCount(xs: seq<int>, cs: seq<Group>, r: int)
    requires GroupsOf(xs, cs)
    ensures Count(xs, r) <= cs[0].count
  {
    if Count(xs, r) >= 1 {
      assert Group(r, Count(xs, r)) in cs;
      var j :| 0 <= j < |cs| && cs[j] == Group(r, Count(xs, r));
    }
  }

  /** Every rank other than the first item's has at most the second item's multiplicity. */
  lemma SecondCount(xs: seq<int>, cs: seq<Group>, r: int)
    requires GroupsOf(xs, cs) && |cs| >= 2 && r != cs[0].rank
    ensures Count(xs, r) <= cs[1].count
  {
    if Count(xs, r) >= 1 {
      assert Group(r, Count(xs, r)) in cs;
      var j :| 0 <= j < |cs| && cs[j] == Group(r, Count(xs, r));
      assert j != 0;
    }
  }

  /** `counts_sorted[0][1] == 4` tests for four of a kind. */
  lemma FourTest(xs: seq<int>, cs: seq<Group>)
    requires |xs| == 5 && GroupsOf(xs, cs)
    ensures cs[0].count == 4 <==> HasMultiplicity(xs, 4)
  {
    GroupAt(xs, cs, 0);
    if HasMultiplicity(xs, 4) {
      var r :| Count(xs, r) == 4;
      TopCount(xs, cs, r);
      CountPairBound(xs, r, cs[0].rank);
    }
  }

  /** `counts_sorted[0][1] == 3` tests for three of a kind (alone or in a full house). */
  lemma ThreeTest(xs: seq<int>, cs: seq<Group>)
    requires |xs| == 5 && GroupsOf(xs, cs)
    ensures cs[0].count == 3 <==> HasMultiplicity(xs, 3)
  {
    GroupAt(xs, cs, 0);
    if HasMultiplicity(xs, 3) {
      var r :| Count(xs, r) == 3;
      TopCount(xs, cs, r);
      CountPairBound(xs, r, cs[0].rank);
    }
  }

  /** `counts_sorted[0][1] == 3 and counts_sorted[1][1] == 2` tests for a full house. */
  lemma FullHouseTest(xs: seq<int>, cs: seq<Group>)
    requires |xs| == 5 && GroupsOf(xs, cs)
    ensures cs[0].count == 3 ==> |cs| >= 2
    ensures (cs[0].count == 3 && cs[1].count == 2) <==> HasMultiplicity(xs, 3) && HasMultiplicity(xs, 2)
  {
    GroupAt(xs, cs, 0);
    if cs[0].count == 3 {
      GroupAt(xs, cs, 1);
      FirstTwoDiffer(xs, cs);
    }
    if HasMultiplicity(xs, 3) && HasMultiplicity(xs, 2) {
      var a :| Count(xs, a) == 3;
      var b :| Count(xs, b) == 2;
      TopCount(xs, cs, a);
      CountPairBound(xs, a, cs[0].rank);
      assert cs[0].rank == a;
      SecondCount(xs, cs, b);
      GroupAt(xs, cs, 1);
      FirstTwoDiffer(xs, cs);
      CountPairBound(xs, a, cs[1].rank);
    }
  }

  /** `counts_sorted[0][1] == 2 and counts_sorted[1][1] == 2` tests for two pair. */
  lemma TwoPairTest(xs: seq<int>, cs: seq<Group>)
    requires |xs| == 5 && GroupsOf(xs, cs)
    ensures cs[0].count == 2 ==> |cs| >= 2
    ensures (cs[0].count == 2 && cs[1].count == 2) <==> HasTwoPairs(xs)
  {
    GroupAt(xs, cs, 0);
    if cs[0].count == 2 {
      GroupAt(xs, cs, 1);
      FirstTwoDiffer(xs, cs);
    }
    if HasTwoPairs(xs) {
      var a, b :| a != b && Count(xs, a) == 2 && Count(xs, b) == 2;
      TopCount(xs, cs, a);
      CountTripleBound(xs, a, b, cs[0].rank);
      assert cs[0].count == 2;
      var other := if cs[0].rank == a then b else a;
      SecondCount(xs, cs, other);
      FirstTwoDiffer(xs, cs);
    }
  }

  /** Once trips and quads are ruled out, `counts_sorted[0][1] == 2` tests for a pair. */
  lemma PairTest(xs: seq<int>, cs: seq<Group>)
    requires |xs| == 5 && GroupsOf(xs, cs)
    requires !HasMultiplicity(xs, 3) && !HasMultiplicity(xs, 4)
    ensures cs[0].count == 2 <==> HasMultiplicity(xs, 2)
  {
    GroupAt(xs, cs, 0);
    if HasMultiplicity(xs, 2) {
      var r :| Count(xs, r) == 2;
      TopCount(xs, cs, r);
      CountPairBound(xs, r, cs[0].rank);
    }
  }

  /** Items at different positions are for different ranks. */
  lemma RanksDiffer(xs: seq<int>, cs: seq<Group>, i: int, j: int)
    requires GroupsOf(xs, cs) && 0 <= i < j < |cs|
    ensures cs[i].rank != cs[j].rank && cs[j].count <= cs[i].count
  {
    GroupAt(xs, cs, i);
    GroupAt(xs, cs, j);
  }

  // ---------------------------------------------------------------------
  // The category

  /** Equal multiplicities mean equal categories. */
  lemma SameCounts(a: seq<int>, b: seq<int>)
    requires forall v :: Count(a, v) == Count(b, v)
    ensures forall c :: HasMultiplicity(a, c) <==> HasMultiplicity(b, c)
    ensures HasTwoPairs(a) <==> HasTwoPairs(b)
    ensures forall h :: StraightTo(a, h) <==> StraightTo(b, h)
    ensures IsStraight(a) <==> IsStraight(b)
  {
    forall h ensures StraightTo(a, h) <==> StraightTo(b, h) {
    }
    if IsStraight(a) {
      var h :| StraightTo(a, h);
      assert StraightTo(b, h);
    }
    if IsStraight(b) {
      var h :| StraightTo(b, h);
      assert StraightTo(a, h);
    }
  }

  /** The observations `evaluate_5card_hand` makes before its cascade, as
      facts about the hand: `ranks` has the hand's multiplicities, `cs` is its
      `counts_sorted`, `straight` its straight's high card, `flush` whether
      all suits agree. */
  ghost predicate Observed(cards: seq<Card>, ranks: seq<int>, cs: seq<Group>, straight: Option<int>, flush: bool) {
    && |cards| == 5 && |ranks| == 5 && InRange(ranks, 2, 14)
    && (forall v :: Count(ranks, v) == Count(Ranks(cards), v))
    && GroupsOf(ranks, cs)
    && (straight.Some? ==> StraightTo(ranks, straight.value))
    && (straight.Some? <==> IsStraight(ranks))
    && (straight == Some(14) <==> StraightTo(ranks, 14))
    && (flush <==> AllOneSuit(cards))
  }

  /** `Evaluate` is the cascade applied to what it observes. */
  lemma EvaluateObserves(cards: seq<Card>)
    requires |cards| == 5
    ensures var ranks := SortDown(Ranks(cards), 14, 2);
      && Observed(cards, ranks, CountsSorted(ranks), StraightHigh(ranks), IsFlush(cards))
      && Evaluate(cards) == Decide(ranks, CountsSorted(ranks), StraightHigh(ranks), IsFlush(cards))
  {
    SortedRanks(cards);
    var ranks := SortDown(Ranks(cards), 14, 2);
    CountsSortedGroups(ranks);
    FlushTest(cards);
    StraightTest(ranks, 14);
    StraightSound(ranks);
  }

  lemma DecideCategory(cards: seq<Card>, ranks: seq<int>, cs: seq<Group>, straight: Option<int>, flush: bool)
    requires Observed(cards, ranks, cs, straight, flush)
    ensures Decide(ranks, cs, straight, flush).1 == Category(cards)
  {
    SameCounts(ranks, Ranks(cards));
    FourTest(ranks, cs);
    FullHouseTest(ranks, cs);
    ThreeTest(ranks, cs);
    TwoPairTest(ranks, cs);
    if !HasMultiplicity(ranks, 3) && !HasMultiplicity(ranks, 4) {
      PairTest(ranks, cs);
    }
  }

  /** The evaluator's category is the hand's category: the branch order of
      `evaluate_5card_hand` with each test replaced by what it means. */
  lemma EvaluateCategory(cards: seq<Card>)
    requires |cards| == 5
    ensures Evaluate(cards).1 == Category(cards)
  {
    EvaluateObserves(cards);
    var ranks := SortDown(Ranks(cards), 14, 2);
    DecideCategory(cards, ranks, CountsSorted(ranks), StraightHigh(ranks), IsFlush(cards));
  }

  /** A higher category beats every score of a lower one, whatever the ranks. */
  lemma CategoryDominates(a: seq<Card>, b: seq<Card>)
    requires |a| == 5 && |b| == 5
    requires Evaluate(a).1 < Evaluate(b).1
    ensures Below(Evaluate(a).0, Evaluate(b).0) && !Below(Evaluate(b).0, Evaluate(a).0)
  {
    FirstEntryDecides(Evaluate(a).0, Evaluate(b).0);
  }

  // ---------------------------------------------------------------------
  // Score tuples

  /** What each score tuple says about the hand's ranks `xs`. */
  ghost predicate ScoreMeans(xs: seq<int>, score: seq<int>, t: TypeIndex) {
    && |score| >= 2 && score[0] == t
    && (t in {ROYAL_FLUSH, STRAIGHT_FLUSH, STRAIGHT} ==>
          |score| == 2 && StraightTo(xs, score[1]) && (t == ROYAL_FLUSH <==> score == [9, 14]))
    && (t == FOUR_OF_A_KIND ==>
          |score| == 3 && Count(xs, score[1]) == 4 && Count(xs, score[2]) == 1)
    && (t == FULL_HOUSE ==>
          |score| == 3 && Count(xs, score[1]) == 3 && Count(xs, score[2]) == 2)
    && (t == TWO_PAIR ==>
          |score| == 4 && score[1] > score[2]
          && Count(xs, score[1]) == 2 && Count(xs, score[2]) == 2 && Count(xs, score[3]) == 1)
    && (t == THREE_OF_A_KIND ==> Count(xs, score[1]) == 3 && KickersOf(xs, score[2..]))
    && (t == ONE_PAIR ==> Count(xs, score[1]) == 2 && KickersOf(xs, score[2..]))
    && (t in {FLUSH, HIGH_CARD} ==> Descending(score[1..]) && multiset(score[1..]) == multiset(xs))
  }

  /** The kickers: every rank occurring once, highest first. */
  ghost predicate KickersOf(xs: seq<int>, ks: seq<int>) {
    StrictlyDescending(ks) && forall v :: v in ks <==> Count(xs, v) == 1
  }

  lemma DecideStraightScores(cards: seq<Card>, ranks: seq<int>, cs: seq<Group>, straight: Option<int>, flush: bool)
    requires Observed(cards, ranks, cs, straight, flush)
    ensures var (score, t) := Decide(ranks, cs, straight, flush);
      t in {ROYAL_FLUSH, STRAIGHT_FLUSH, STRAIGHT} ==>
        |score| == 2 && StraightTo(Ranks(cards), score[1]) && (t == ROYAL_FLUSH <==> score == [9, 14])
  {
    SameCounts(ranks, Ranks(cards));
  }

  lemma DecideGroupScores(cards: seq<Card>, ranks: seq<int>, cs: seq<Group>, straight: Option<int>, flush: bool)
    requires |ranks| == 5 && InRange(ranks, 2, 14) && GroupsOf(ranks, cs)
    requires forall v :: Count(ranks, v) == Count(Ranks(cards), v)
    ensures var (score, t) := Decide(ranks, cs, straight, flush); var xs := Ranks(cards);
      && (t == FOUR_OF_A_KIND ==>
            |score| == 3 && Count(xs, score[1]) == 4 && Count(xs, score[2]) == 1)
      && (t == FULL_HOUSE ==>
            |score| == 3 && Count(xs, score[1]) == 3 && Count(xs, score[2]) == 2)
      && (t == TWO_PAIR ==>
            |score| == 4 && score[1] > score[2]
            && Count(xs, score[1]) == 2 && Count(xs, score[2]) == 2 && Count(xs, score[3]) == 1)
  {
    GroupAt(ranks, cs, 0);
    if cs[0].count < 5 {
      GroupAt(ranks, cs, 1);
      RanksDiffer(ranks, cs, 0, 1);
      CountPairBound(ranks, cs[0].rank, cs[1].rank);
      if cs[0].count + cs[1].count < 5 {
        GroupAt(ranks, cs, 2);
        RanksDiffer(ranks, cs, 0, 2);
        RanksDiffer(ranks, cs, 1, 2);
        CountTripleBound(ranks, cs[0].rank, cs[1].rank, cs[2].rank);
      }
    }
  }

  lemma {:induction false} SinglesMembers(gs: seq<Group>, v: int)
    ensures v in Singles(gs) <==> Group(v, 1) in gs
  {
    if gs != [] {
      SinglesMembers(gs[1..], v);
      assert gs == [gs[0]] + gs[1..];
    }
  }

  lemma {:induction false} SinglesRange(gs: seq<Group>)
    requires forall i :: 0 <= i < |gs| ==> 2 <= gs[i].rank <= 14
    requires GroupOrdered(gs)
    ensures InRange(Singles(gs), 2, 14) && Distinct(Singles(gs))
  {
    if gs != [] {
      SinglesRange(gs[1..]);
      var rest := Singles(gs[1..]);
      if gs[0].count == 1 {
        forall k | 0 <= k < |rest| ensures rest[k] != gs[0].rank {
          assert rest[k] in rest;
          SinglesMembers(gs[1..], rest[k]);
        }
      }
    }
  }

  /** The kickers of trips and of one pair. */
  lemma KickersAfterFirst(xs: seq<int>, cs: seq<Group>)
    requires GroupsOf(xs, cs) && cs[0].count != 1
    requires InRange(xs, 2, 14)
    ensures KickersOf(xs, SortDown(Singles(cs[1..]), 14, 2))
  {
    var tail := cs[1..];
    forall i | 0 <= i < |tail| ensures 2 <= tail[i].rank <= 14 {
      GroupAt(xs, cs, i + 1);
      CountPositive(xs, tail[i].rank);
    }
    SinglesRange(tail);
    SortDownOfDistinct(Singles(tail), 14, 2);
    forall v ensures v in Singles(tail) <==> Count(xs, v) == 1 {
      SinglesMembers(tail, v);
      if Count(xs, v) == 1 {
        assert Group(v, 1) in cs;
        var j :| 0 <= j < |cs| && cs[j] == Group(v, 1);
        assert tail[j - 1] == Group(v, 1);
      }
    }
  }

  lemma DecideKickerScores(cards: seq<Card>, ranks: seq<int>, cs: seq<Group>, straight: Option<int>, flush: bool)
    requires |ranks| == 5 && InRange(ranks, 2, 14) && GroupsOf(ranks, cs)
    requires forall v :: Count(ranks, v) == Count(Ranks(cards), v)
    ensures var (score, t) := Decide(ranks, cs, straight, flush); var xs := Ranks(cards);
      && (t == THREE_OF_A_KIND ==> Count(xs, score[1]) == 3 && KickersOf(xs, score[2..]))
      && (t == ONE_PAIR ==> Count(xs, score[1]) == 2 && KickersOf(xs, score[2..]))
  {
    DecideKickerTail(ranks, cs, straight, flush);
    GroupAt(ranks, cs, 0);
    if cs[0].count != 1 {
      KickersAfterFirst(ranks, cs);
    }
  }

  /** Trips and one pair score the grouped rank, then the sorted singles. */
  lemma DecideKickerTail(ranks: seq<int>, cs: seq<Group>, straight: Option<int>, flush: bool)
    requires |ranks| == 5 && InRange(ranks, 2, 14) && Indexable(5, cs)
    ensures var (score, t) := Decide(ranks, cs, straight, flush);
      t == THREE_OF_A_KIND || t == ONE_PAIR ==>
        && cs[0].count == (if t == THREE_OF_A_KIND then 3 else 2)
        && score[1] == cs[0].rank && score[2..] == SortDown(Singles(cs[1..]), 14, 2)
  {
  }

  /** The flush and high-card scores end with the ranks sorted again. */
  lemma DecideSortedTail(ranks: seq<int>, cs: seq<Group>, straight: Option<int>, flush: bool)
    requires |ranks| == 5 && InRange(ranks, 2, 14) && Indexable(5, cs)
    ensures var (score, t) := Decide(ranks, cs, straight, flush);
      t == FLUSH || t == HIGH_CARD ==> score[1..] == SortDown(ranks, 14, 2)
  {
  }

  lemma DecideRankScores(cards: seq<Card>, ranks: seq<int>, cs: seq<Group>, straight: Option<int>, flush: bool)
    requires |ranks| == 5 && InRange(ranks, 2, 14) && GroupsOf(ranks, cs)
    requires forall v :: Count(ranks, v) == Count(Ranks(cards), v)
    ensures var (score, t) := Decide(ranks, cs, straight, flush);
      t in {FLUSH, HIGH_CARD} ==>
        Descending(score[1..]) && multiset(score[1..]) == multiset(Ranks(cards))
  {
    SortDownIsSortedPermutation(ranks, 14, 2);
    SameCountsSameMultiset(ranks, Ranks(cards));
    DecideSortedTail(ranks, cs, straight, flush);
  }

  /** Every score tuple has the shape its category promises: straights score
      their high card, quads `(7, quad, kicker)`, a full house `(6, trips,
      pair)`, two pair `(2, high pair, low pair, kicker)`, trips and one pair
      the grouped rank then the kickers, flush and high card all five ranks
      highest first. */
  lemma EvaluateScore(cards: seq<Card>)
    requires |cards| == 5
    ensures ScoreMeans(Ranks(cards), Evaluate(cards).0, Evaluate(cards).1)
  {
    EvaluateObserves(cards);
    var ranks := SortDown(Ranks(cards), 14, 2);
    var cs := CountsSorted(ranks);
    var straight := StraightHigh(ranks);
    var flush := IsFlush(cards);
    DecideStraightScores(cards, ranks, cs, straight, flush);
    DecideGroupScores(cards, ranks, cs, straight, flush);
    DecideKickerScores(cards, ranks, cs, straight, flush);
    DecideRankScores(cards, ranks, cs, straight, flush);
  }
}
