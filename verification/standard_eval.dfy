/** The standard five-card evaluator: a score tuple, compared lexicographically,
    whose first entry is the category, and the index of the category's name in
    `HAND_TYPES`. */
module StandardEval {
  import opened Cards
  import opened Multiplicity
  import opened Results
  import opened ScoreOrder
  import opened CounterMaps

  /** Category names, weakest first; the position is the category number. */
  const HAND_TYPES: seq<string> := [
    "High Card",
    "One Pair",
    "Two Pair",
    "Three of a Kind",
    "Straight",
    "Flush",
    "Full House",
    "Four of a Kind",
    "Straight Flush",
    "Royal Flush"
  ]

  type TypeIndex = i: int | 0 <= i < 10

  /** `HAND_TYPES.index(name)` for each name the evaluator looks up. */
  const HIGH_CARD: TypeIndex := 0
  const ONE_PAIR: TypeIndex := 1
  const TWO_PAIR: TypeIndex := 2
  const THREE_OF_A_KIND: TypeIndex := 3
  const STRAIGHT: TypeIndex := 4
  const FLUSH: TypeIndex := 5
  const FULL_HOUSE: TypeIndex := 6
  const FOUR_OF_A_KIND: TypeIndex := 7
  const STRAIGHT_FLUSH: TypeIndex := 8
  const ROYAL_FLUSH: TypeIndex := 9

  /** The index constants are where `list.index` finds each name: the names
      are listed once each, so the first occurrence is the only one. */
  lemma HandTypeIndices()
    ensures |HAND_TYPES| == 10
    ensures forall i, j :: 0 <= i < j < |HAND_TYPES| ==> HAND_TYPES[i] != HAND_TYPES[j]
    ensures HAND_TYPES[HIGH_CARD] == "High Card" && HAND_TYPES[ONE_PAIR] == "One Pair"
    ensures HAND_TYPES[TWO_PAIR] == "Two Pair" && HAND_TYPES[THREE_OF_A_KIND] == "Three of a Kind"
    ensures HAND_TYPES[STRAIGHT] == "Straight" && HAND_TYPES[FLUSH] == "Flush"
    ensures HAND_TYPES[FULL_HOUSE] == "Full House" && HAND_TYPES[FOUR_OF_A_KIND] == "Four of a Kind"
    ensures HAND_TYPES[STRAIGHT_FLUSH] == "Straight Flush" && HAND_TYPES[ROYAL_FLUSH] == "Royal Flush"
  {
  }

  /** `HAND_TYPES[type_idx]`: the Counter key of a category. */
  function TypeName(t: TypeIndex): string {
    HAND_TYPES[t]
  }

  /** Every category's key is listed once in `HAND_TYPES`. */
  lemma HandTypeNames()
    ensures NoDuplicates(HAND_TYPES)
    ensures forall t: TypeIndex :: TypeName(t) in HAND_TYPES
  {
    HandTypeIndices();
  }

  // ---------------------------------------------------------------------
  // Rank groups: `sorted(Counter(ranks).items(), key=(count, rank), reverse=True)`

  /** A `(rank, count)` item of the rank counter. */
  datatype Group = Group(rank: int, count: nat)

  /** Scans multiplicities from `c` down to 1 and, within each, ranks from `r`
      down to 2, listing the ranks that occur exactly that often. */
  function Scan(ranks: seq<int>, c: nat, r: int): seq<Group>
    decreases c, r
  {
    if c == 0 then []
    else if r < 2 then Scan(ranks, c - 1, 14)
    else (if Count(ranks, r) == c then [Group(r, c)] else []) + Scan(ranks, c, r - 1)
  }

  /** `counts_sorted` of the ranks (which lie in 2..14). */
  function CountsSorted(ranks: seq<int>): seq<Group> {
    Scan(ranks, |ranks|, 14)
  }

  /** Items in descending order of `(count, rank)`. */
  predicate GroupOrdered(gs: seq<Group>) {
    forall i, j :: 0 <= i < j < |gs| ==>
      gs[i].count > gs[j].count || (gs[i].count == gs[j].count && gs[i].rank > gs[j].rank)
  }

  /** `g` comes no later than position `(c, r)` of the scan. */
  predicate NotAfter(g: Group, c: int, r: int) {
    g.count < c || (g.count == c && g.rank <= r)
  }

  lemma {:induction false} ScanMembers(ranks: seq<int>, c: nat, r: int)
    requires r <= 14
    ensures forall g :: g in Scan(ranks, c, r) <==>
      1 <= g.count && NotAfter(g, c, r) && 2 <= g.rank <= 14 && Count(ranks, g.rank) == g.count
    decreases c, r
  {
    if c > 0 {
      if r < 2 {
        ScanMembers(ranks, c - 1, 14);
      } else {
        ScanMembers(ranks, c, r - 1);
      }
    }
  }

  lemma {:induction false} ScanOrdered(ranks: seq<int>, c: nat, r: int)
    requires r <= 14
    ensures GroupOrdered(Scan(ranks, c, r))
    decreases c, r
  {
    if c > 0 {
      if r < 2 {
        ScanOrdered(ranks, c - 1, 14);
      } else {
        ScanOrdered(ranks, c, r - 1);
        var tail := Scan(ranks, c, r - 1);
        ScanMembers(ranks, c, r - 1);
        forall j | 0 <= j < |tail| ensures NotAfter(tail[j], c, r - 1) {
          assert tail[j] in tail;
        }
      }
    }
  }

  /** The items of `counts_sorted` are exactly the ranks that occur, each with
      its multiplicity. */
  lemma CountsSortedMembers(xs: seq<int>, g: Group)
    requires InRange(xs, 2, 14)
    ensures g in CountsSorted(xs) <==> g.count >= 1 && Count(xs, g.rank) == g.count
  {
    ScanMembers(xs, |xs|, 14);
    if g.count >= 1 && Count(xs, g.rank) == g.count {
      CountPositive(xs, g.rank);
      var k :| 0 <= k < |xs| && xs[k] == g.rank;
    }
  }

  lemma CountsSortedItem(xs: seq<int>, i: int)
    requires InRange(xs, 2, 14) && 0 <= i < |CountsSorted(xs)|
    ensures var g := CountsSorted(xs)[i];
      2 <= g.rank <= 14 && 1 <= g.count && Count(xs, g.rank) == g.count
  {
    var g := CountsSorted(xs)[i];
    CountsSortedMembers(xs, g);
    CountPositive(xs, g.rank);
  }

  /** `counts_sorted` is ordered by `(count, rank)` descending, and it has a
      further item whenever the first ones do not account for every rank. */
  lemma CountsSortedShape(xs: seq<int>)
    requires |xs| >= 1 && InRange(xs, 2, 14)
    ensures GroupOrdered(CountsSorted(xs)) && Indexable(|xs|, CountsSorted(xs))
  {
    var cs := CountsSorted(xs);
    ScanOrdered(xs, |xs|, 14);
    CountPositive(xs, xs[0]);
    CountsSortedMembers(xs, Group(xs[0], Count(xs, xs[0])));
    CountsSortedItem(xs, 0);
    if cs[0].count < |xs| {
      var k := CountOther(xs, cs[0].rank);
      CountPositive(xs, xs[k]);
      CountsSortedMembers(xs, Group(xs[k], Count(xs, xs[k])));
    }
    if |cs| >= 2 && cs[0].count + cs[1].count < |xs| {
      CountsSortedItem(xs, 1);
      var k := CountOther2(xs, cs[0].rank, cs[1].rank);
      CountPositive(xs, xs[k]);
      CountsSortedMembers(xs, Group(xs[k], Count(xs, xs[k])));
    }
  }

  // ---------------------------------------------------------------------
  // Straights and flushes

  /** `high_in_straight`: five distinct ranks spanning four, or the wheel
      A-2-3-4-5, whose high card is the five. */
  function StraightHigh(ranks: seq<int>): Option<int> {
    var uniq := UniqDown(ranks, 14, 2);
    if |uniq| == 5 && uniq[0] - uniq[4] == 4 then Some(uniq[0])
    else if SetOf(uniq) == {14, 5, 4, 3, 2} then Some(5)
    else None
  }

  /** `len(set(suits)) == 1`. */
  function IsFlush(cards: seq<Card>): bool {
    |SetOf(Suits(cards))| == 1
  }

  // ---------------------------------------------------------------------
  // The evaluator

  /** `[r for r, c in groups if c == 1]`. */
  function Singles(gs: seq<Group>): seq<int> {
    if gs == [] then [] else (if gs[0].count == 1 then [gs[0].rank] else []) + Singles(gs[1..])
  }

  /** The sorted ranks of a hand are a descending rearrangement of its ranks. */
  lemma SortedRanks(cards: seq<Card>)
    ensures var ranks := SortDown(Ranks(cards), 14, 2);
      && |ranks| == |cards| && InRange(ranks, 2, 14) && Descending(ranks)
      && forall v :: Count(ranks, v) == Count(Ranks(cards), v)
  {
    var xs := Ranks(cards);
    assert InRange(xs, 2, 14);
    SortDownIsSortedPermutation(xs, 14, 2);
    SortDownBounds(xs, 14, 2);
    forall v ensures Count(SortDown(xs, 14, 2), v) == Count(xs, v) {
      SortDownCount(xs, 14, 2, v);
      if !(2 <= v <= 14) {
        CountPositive(xs, v);
      }
    }
  }

  /** `evaluate_5card_hand(cards)` for exactly five cards: the score tuple and
      the category index, which is also the tuple's first entry. */
  function Evaluate(cards: seq<Card>): (r: (seq<int>, TypeIndex))
    requires |cards| == 5
    ensures |r.0| >= 2 && r.0[0] == r.1
  {
    SortedRanks(cards);
    var ranks := SortDown(Ranks(cards), 14, 2);
    CountsSortedShape(ranks);
    Decide(ranks, CountsSorted(ranks), StraightHigh(ranks), IsFlush(cards))
  }

  /** The entries of `counts_sorted` that the branch tests index exist. */
  predicate Indexable(n: int, counts: seq<Group>) {
    && |counts| >= 1
    && (counts[0].count < n ==> |counts| >= 2)
    && (|counts| >= 2 && counts[0].count + counts[1].count < n ==> |counts| >= 3)
  }

  /** The branch cascade of `evaluate_5card_hand`, given the sorted ranks,
      `counts_sorted`, the straight's high card and the flush test. */
  function Decide(ranks: seq<int>, counts: seq<Group>, straight: Option<int>, isFlush: bool): (r: (seq<int>, TypeIndex))
    requires |ranks| == 5 && InRange(ranks, 2, 14) && Indexable(5, counts)
    ensures |r.0| >= 2 && r.0[0] == r.1
  {
    SortDownIsSortedPermutation(ranks, 14, 2);
    if straight.Some? && isFlush then
      if straight.value == 14 then ([9, straight.value], ROYAL_FLUSH)
      else ([8, straight.value], STRAIGHT_FLUSH)
    else if counts[0].count == 4 then
      ([7, counts[0].rank, counts[1].rank], FOUR_OF_A_KIND)
    else if counts[0].count == 3 && counts[1].count == 2 then
      ([6, counts[0].rank, counts[1].rank], FULL_HOUSE)
    else if isFlush then
      ([5] + SortDown(ranks, 14, 2), FLUSH)
    else if straight.Some? then
      ([4, straight.value], STRAIGHT)
    else if counts[0].count == 3 then
      ([3, counts[0].rank] + SortDown(Singles(counts[1..]), 14, 2), THREE_OF_A_KIND)
    else if counts[0].count == 2 && counts[1].count == 2 then
      ([2, counts[0].rank, counts[1].rank, counts[2].rank], TWO_PAIR)
    else if counts[0].count == 2 then
      ([1, counts[0].rank] + SortDown(Singles(counts[1..]), 14, 2), ONE_PAIR)
    else
      ([0] + SortDown(ranks, 14, 2), HIGH_CARD)
  }

  /** `evaluate_5card_hand` on any number of cards: the size assertion fails
      unless there are exactly five. */
  function Evaluate5CardHand(cards: seq<Card>): (r: Result<(seq<int>, TypeIndex)>)
    ensures r.Err? <==> |cards| != 5
    ensures r.Err? ==> r.error == AssertionFailed
    ensures r.Ok? ==> |r.value.0| >= 2 && r.value.0[0] == r.value.1 && 0 <= r.value.1 < |HAND_TYPES|
  {
    if |cards| != 5 then Err(AssertionFailed) else Ok(Evaluate(cards))
  }
}
