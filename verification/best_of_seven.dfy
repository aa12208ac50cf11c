/** `best_five_of_seven`: the best standard score among the 21 five-card
    sub-hands of seven cards, scanned in `itertools.combinations` order. */
module BestOfSeven {
  import opened Cards
  import opened Combinatorics
  import opened Results
  import opened ScoreOrder
  import opened StandardEval

  /** An evaluated hand: its score tuple and its category index. */
  type Scored = (seq<int>, TypeIndex)

  function ScoreKey(p: Scored): seq<int> {
    p.0
  }

  /** `c` is one of the five-card sub-hands of `cards`. */
  predicate FiveOf(c: seq<Card>, cards: seq<Card>) {
    |c| == 5 && SubseqOf(c, cards)
  }

  lemma FiveCardHands(cards: seq<Card>)
    ensures forall i :: 0 <= i < |Combinations(cards, 5)| ==> |Combinations(cards, 5)[i]| == 5
  {
    forall i | 0 <= i < |Combinations(cards, 5)| ensures |Combinations(cards, 5)[i]| == 5 {
      CombinationsSound(cards, 5, Combinations(cards, 5)[i]);
    }
  }

  /** The evaluation of each hand, in order. */
  function Scores(hands: seq<seq<Card>>): (r: seq<Scored>)
    requires forall i :: 0 <= i < |hands| ==> |hands[i]| == 5
    ensures |r| == |hands|
    decreases |hands|
  {
    if hands == [] then [] else Scores(hands[..|hands| - 1]) + [Evaluate(hands[|hands| - 1])]
  }

  lemma {:induction false} ScoresAt(hands: seq<seq<Card>>, i: int)
    requires forall i :: 0 <= i < |hands| ==> |hands[i]| == 5
    requires 0 <= i < |hands|
    ensures Scores(hands)[i] == Evaluate(hands[i])
    decreases |hands|
  {
    if i < |hands| - 1 {
      var p := hands[..|hands| - 1];
      ScoresAt(p, i);
    }
  }

  lemma ScoresSnoc(hands: seq<seq<Card>>, i: int)
    requires forall i :: 0 <= i < |hands| ==> |hands[i]| == 5
    requires 0 <= i < |hands|
    ensures Scores(hands[..i + 1]) == Scores(hands[..i]) + [Evaluate(hands[i])]
  {
    assert hands[..i + 1][..i] == hands[..i];
  }

  /** What the selection loop leaves in `(best_score, best_type_idx)`. */
  function BestOf(cards: seq<Card>): Option<Scored> {
    FiveCardHands(cards);
    FirstMax(Scores(Combinations(cards, 5)), ScoreKey)
  }

  /** Over any non-empty list of scored hands the scan picks the first one
      whose score no other score exceeds. */
  lemma FirstBestHand(s: seq<Scored>)
    requires s != []
    ensures exists k :: FirstBestAt(s, k) && FirstMax(s, ScoreKey) == Some(s[k])
  {
    var key: Scored -> seq<int> := ScoreKey;
    FirstMaxSpec(s, key);
    var k :| && 0 <= k < |s| && FirstMax(s, key) == Some(s[k])
             && (forall j :: 0 <= j < k ==> Below(key(s[j]), key(s[k])))
             && (forall j :: 0 <= j < |s| ==> !Below(key(s[k]), key(s[j])));
    assert forall j :: 0 <= j < |s| ==> key(s[j]) == s[j].0;
    assert FirstBestAt(s, k);
  }

  /** Position `k` holds the first score that no score exceeds: every score
      before it is strictly below it, and none is above it. */
  ghost predicate FirstBestAt(s: seq<Scored>, k: int) {
    && 0 <= k < |s|
    && (forall j :: 0 <= j < k ==> Below(s[j].0, s[k].0))
    && (forall j :: 0 <= j < |s| ==> !Below(s[k].0, s[j].0))
  }

  /** For seven cards the loop picks a sub-hand: the first, in combination
      order, whose score no sub-hand's score exceeds. */
  lemma BestOfSevenFirst(cards: seq<Card>)
    requires |cards| == 7
    ensures var hands := Combinations(cards, 5);
      && |hands| == 21
      && (forall i :: 0 <= i < |hands| ==> |hands[i]| == 5)
      && exists k :: FirstBestAt(Scores(hands), k) && BestOf(cards) == Some(Scores(hands)[k])
  {
    CombinationsCount(cards, 5);
    SevenChooseFive();
    FiveCardHands(cards);
    FirstBestHand(Scores(Combinations(cards, 5)));
  }

  /** For seven cards the loop always ends with a best hand. */
  lemma BestOfSome(cards: seq<Card>)
    requires |cards| == 7
    ensures BestOf(cards).Some?
  {
    BestOfSevenMaximal(cards);
  }

  /** The chosen score and category index are those of one five-card
      sub-hand of the seven cards, and no sub-hand scores higher. */
  lemma BestOfSevenMaximal(cards: seq<Card>)
    requires |cards| == 7
    ensures BestOf(cards).Some?
    ensures exists c :: FiveOf(c, cards) && BestOf(cards) == Some(Evaluate(c))
    ensures forall c :: FiveOf(c, cards) ==> !Below(BestOf(cards).value.0, Evaluate(c).0)
  {
    BestOfSevenFirst(cards);
    var hands := Combinations(cards, 5);
    var k :| FirstBestAt(Scores(hands), k) && BestOf(cards) == Some(Scores(hands)[k]);
    CombinationsSound(cards, 5, hands[k]);
    ScoresAt(hands, k);
    assert FiveOf(hands[k], cards);
    NoSubHandAbove(cards, Scores(hands)[k].0);
  }

  /** A score no combination's score exceeds is exceeded by no sub-hand. */
  lemma NoSubHandAbove(cards: seq<Card>, best: seq<int>)
    requires forall i :: 0 <= i < |Combinations(cards, 5)| ==> |Combinations(cards, 5)[i]| == 5
    requires forall j :: 0 <= j < |Combinations(cards, 5)| ==> !Below(best, Scores(Combinations(cards, 5))[j].0)
    ensures forall c :: FiveOf(c, cards) ==> !Below(best, Evaluate(c).0)
  {
    var hands := Combinations(cards, 5);
    forall c | FiveOf(c, cards) ensures !Below(best, Evaluate(c).0) {
      CombinationsComplete(cards, 5, c);
      var j :| 0 <= j < |hands| && hands[j] == c;
      ScoresAt(hands, j);
    }
  }

  /** The loop of `best_five_of_seven`: score each hand in turn and keep it
      when there is no best yet or its score is strictly greater. */
  method ScanHands(hands: seq<seq<Card>>) returns (best: Option<Scored>)
    requires forall i :: 0 <= i < |hands| ==> |hands[i]| == 5
    ensures best == FirstMax(Scores(hands), ScoreKey)
  {
    best := None;
    for i := 0 to |hands|
      invariant best == FirstMax(Scores(hands[..i]), ScoreKey)
    {
      var scored := Evaluate(hands[i]);
      ScoresSnoc(hands, i);
      if best.None? || Below(best.value.0, scored.0) {
        best := Some(scored);
      }
    }
    assert hands[..|hands|] == hands;
  }

  /** `best_five_of_seven(cards)`: the size assertion, then the scan over the
      five-card combinations. */
  method BestFiveOfSeven(cards: seq<Card>) returns (r: Result<Scored>)
    ensures r.Err? <==> |cards| != 7
    ensures r.Err? ==> r.error == AssertionFailed
    ensures r.Ok? ==> BestOf(cards) == Some(r.value)
  {
    if |cards| != 7 {
      return Err(AssertionFailed);
    }
    FiveCardHands(cards);
    var best := ScanHands(Combinations(cards, 5));
    BestOfSevenMaximal(cards);
    r := Ok(best.value);
  }
}
