/** One deal of the hold'em simulation: two hole cards per seat and five
    community cards off the top of a shuffled deck, each seat's best
    five-of-seven score, the seats that share the top score, and the hero's
    (seat 0's) share of the pot. */
module Deal {
  import opened Cards
  import opened Results
  import opened ScoreOrder
  import opened StandardEval
  import opened BestOfSeven

  const MIN_PLAYERS: int := 2
  const MAX_PLAYERS: int := 9

  /** `deck[2 * i : 2 * i + 2]`: the hole cards of seat `i`. */
  function HoleCards(deck: seq<Card>, i: nat): seq<Card>
    requires 2 * i + 2 <= |deck|
  {
    deck[2 * i..2 * i + 2]
  }

  /** `deck[2 * n : 2 * n + 5]`: the board after `n` seats are dealt. */
  function Community(deck: seq<Card>, n: nat): seq<Card>
    requires 2 * n + 5 <= |deck|
  {
    deck[2 * n..2 * n + 5]
  }

  /** `hands[i] + community`: the seven cards seat `i` plays from. */
  function SeatCards(deck: seq<Card>, n: nat, i: nat): (r: seq<Card>)
    requires i < n && 2 * n + 5 <= |deck|
    ensures |r| == 7
  {
    HoleCards(deck, i) + Community(deck, n)
  }

  /** The score and category `best_five_of_seven` gives seat `i`. */
  function SeatBest(deck: seq<Card>, n: nat, i: nat): Scored
    requires i < n && 2 * n + 5 <= |deck|
  {
    BestOfSome(SeatCards(deck, n, i));
    BestOf(SeatCards(deck, n, i)).value
  }

  /** The list `scores`, one entry per seat. */
  function SeatScores(deck: seq<Card>, n: nat): (r: seq<seq<int>>)
    requires 2 * n + 5 <= |deck|
    ensures |r| == n
  {
    seq(n, i requires 0 <= i < n => SeatBest(deck, n, i).0)
  }

  function Identity(s: seq<int>): seq<int> {
    s
  }

  /** `max(scores)`. */
  function MaxScore(scores: seq<seq<int>>): seq<int>
    requires scores != []
  {
    FirstMaxSpec(scores, Identity);
    FirstMax(scores, Identity).value
  }

  /** `[i for i, s in enumerate(scores) if s == best]`. */
  function Winners(scores: seq<seq<int>>, best: seq<int>): seq<nat>
    decreases |scores|
  {
    if scores == [] then []
    else
      var n := |scores| - 1;
      Winners(scores[..n], best) + (if scores[n] == best then [n] else [])
  }

  /** `1.0 / len(winners)`: each winner's part of the pot. */
  function Share(scores: seq<seq<int>>): real
    requires scores != []
  {
    var w := Winners(scores, MaxScore(scores));
    if w == [] then 0.0 else 1.0 / (|w| as real)
  }

  /** Seat `i`'s share of the pot: an equal split among the winners. */
  function Equity(scores: seq<seq<int>>, i: nat): real
    requires scores != []
  {
    if i in Winners(scores, MaxScore(scores)) then Share(scores) else 0.0
  }

  /** What one deal contributes to the hero's counters. */
  datatype Outcome = Outcome(heroType: TypeIndex, heroWins: bool, heroEquity: real)

  /** One deal from `deck` with `n` seats, as the loop body computes it. */
  function TrialOutcome(deck: seq<Card>, n: nat): Outcome
    requires 1 <= n && 2 * n + 5 <= |deck|
  {
    var scores := SeatScores(deck, n);
    Outcome(SeatBest(deck, n, 0).1, 0 in Winners(scores, MaxScore(scores)), Equity(scores, 0))
  }

  // ---------------------------------------------------------------------
  // Dealing

  /** With 2 to 9 seats everything dealt lies within the 52 cards, and no
      card is dealt twice: hole cards of different seats, and hole cards and
      board, never share a card, and each seat's seven cards are distinct. */
  lemma DealDisjoint(deck: seq<Card>, n: int)
    requires IsShuffledDeck(deck) && MIN_PLAYERS <= n <= MAX_PLAYERS
    ensures |deck| == 52 && 2 * n + 5 <= |deck|
    ensures forall i, j, c :: 0 <= i < j < n && c in HoleCards(deck, i) ==> c !in HoleCards(deck, j)
    ensures forall i, c :: 0 <= i < n && c in HoleCards(deck, i) ==> c !in Community(deck, n)
    ensures forall i :: 0 <= i < n ==> DistinctCards(SeatCards(deck, n, i))
  {
    ShuffledDeckDistinct(deck);
    forall i, j, c | 0 <= i < j < n && c in HoleCards(deck, i) ensures c !in HoleCards(deck, j) {
      var a :| 2 * i <= a < 2 * i + 2 && deck[a] == c;
    }
    forall i, c | 0 <= i < n && c in HoleCards(deck, i) ensures c !in Community(deck, n) {
      var a :| 2 * i <= a < 2 * i + 2 && deck[a] == c;
    }
    forall i | 0 <= i < n ensures DistinctCards(SeatCards(deck, n, i)) {
      var s := SeatCards(deck, n, i);
      forall a, b | 0 <= a < b < 7 ensures s[a] != s[b] {
        var pa := if a < 2 then 2 * i + a else 2 * n + a - 2;
        var pb := if b < 2 then 2 * i + b else 2 * n + b - 2;
        assert s[a] == deck[pa] && s[b] == deck[pb];
      }
    }
  }

  // ---------------------------------------------------------------------
  // Winners and equity

  /** `max(scores)` is one of the scores and no score exceeds it. */
  lemma MaxScoreSpec(scores: seq<seq<int>>)
    requires scores != []
    ensures MaxScore(scores) in scores
    ensures forall j :: 0 <= j < |scores| ==> !Below(MaxScore(scores), scores[j])
  {
    var key: seq<int> -> seq<int> := Identity;
    FirstMaxSpec(scores, key);
    assert forall j :: 0 <= j < |scores| ==> key(scores[j]) == scores[j];
  }

  /** The winners are the seats, in seat order, whose score is `best`. */
  lemma {:induction false} WinnersSpec(scores: seq<seq<int>>, best: seq<int>)
    ensures forall i :: i in Winners(scores, best) <==> 0 <= i < |scores| && scores[i] == best
    ensures forall a, b :: 0 <= a < b < |Winners(scores, best)| ==> Winners(scores, best)[a] < Winners(scores, best)[b]
    decreases |scores|
  {
    if scores != [] {
      var n := |scores| - 1;
      WinnersSpec(scores[..n], best);
      var w := Winners(scores[..n], best);
      assert forall a :: 0 <= a < |w| ==> w[a] in w;
    }
  }

  /** Exactly the seats no other seat beats share the pot. */
  lemma WinnersUnbeaten(scores: seq<seq<int>>, i: int)
    requires scores != []
    ensures i in Winners(scores, MaxScore(scores)) <==>
      0 <= i < |scores| && forall j :: 0 <= j < |scores| ==> !Below(scores[i], scores[j])
  {
    var best := MaxScore(scores);
    MaxScoreSpec(scores);
    WinnersSpec(scores, best);
    if 0 <= i < |scores| {
      if scores[i] == best {
        forall j | 0 <= j < |scores| ensures !Below(scores[i], scores[j]) {
        }
      } else {
        var k :| 0 <= k < |scores| && scores[k] == best;
        BelowTrichotomy(scores[i], best);
      }
    }
  }

  /** The shares of the first `m` seats. */
  function SeatsEquity(scores: seq<seq<int>>, m: nat): real
    requires scores != [] && m <= |scores|
  {
    if m == 0 then 0.0 else SeatsEquity(scores, m - 1) + Equity(scores, m - 1)
  }

  /** Some seat holds the top score, so there is at least one winner. */
  lemma SomeWinner(scores: seq<seq<int>>)
    requires scores != []
    ensures |Winners(scores, MaxScore(scores))| > 0
  {
    MaxScoreSpec(scores);
    WinnersSpec(scores, MaxScore(scores));
    var k :| 0 <= k < |scores| && scores[k] == MaxScore(scores);
    assert k in Winners(scores, MaxScore(scores));
  }

  /** `k` shares of `x`, added one at a time. */
  function Shares(k: nat, x: real): real {
    if k == 0 then 0.0 else Shares(k - 1, x) + x
  }

  lemma {:induction false} SharesProduct(k: nat, x: real)
    ensures Shares(k, x) == (k as real) * x
  {
    if k > 0 {
      SharesProduct(k - 1, x);
    }
  }

  /** One winner's part lies in (0, 1], and the parts of all winners make one. */
  lemma UnitShare(k: nat, x: real)
    requires k > 0 && x == 1.0 / (k as real)
    ensures 0.0 < x <= 1.0
    ensures Shares(k, x) == 1.0
  {
    SharesProduct(k, x);
  }

  lemma {:induction false} SeatsEquityCounts(scores: seq<seq<int>>, m: nat)
    requires scores != [] && m <= |scores|
    ensures SeatsEquity(scores, m) == Shares(|Winners(scores[..m], MaxScore(scores))|, Share(scores))
  {
    var best := MaxScore(scores);
    if m > 0 {
      SeatsEquityCounts(scores, m - 1);
      WinnersSpec(scores, best);
      assert scores[..m][..m - 1] == scores[..m - 1];
      var before := |Winners(scores[..m - 1], best)|;
      if scores[m - 1] == best {
        assert |Winners(scores[..m], best)| == before + 1;
      } else {
        assert |Winners(scores[..m], best)| == before;
      }
    } else {
      assert scores[..0] == [];
    }
  }

  /** The seats' shares add up to one pot: the winners split it evenly and
      everyone else gets nothing. */
  lemma EquityConserved(scores: seq<seq<int>>)
    requires scores != []
    ensures SeatsEquity(scores, |scores|) == 1.0
    ensures forall i :: 0 <= i < |scores| ==> 0.0 <= Equity(scores, i) <= 1.0
  {
    var w := Winners(scores, MaxScore(scores));
    SomeWinner(scores);
    SeatsEquityCounts(scores, |scores|);
    assert scores[..|scores|] == scores;
    UnitShare(|w|, Share(scores));
  }

  /** Seat `i` wins exactly when no seat beats it; a winner's share is one
      over the number of winners, a loser's is zero. */
  lemma SeatShare(scores: seq<seq<int>>, i: nat)
    requires 0 <= i < |scores|
    ensures var w := Winners(scores, MaxScore(scores));
      && (i in w <==> forall j :: 0 <= j < |scores| ==> !Below(scores[i], scores[j]))
      && (i in w ==> Equity(scores, i) == 1.0 / (|w| as real))
      && (i !in w ==> Equity(scores, i) == 0.0)
      && (Equity(scores, i) > 0.0 <==> i in w)
      && 0.0 <= Equity(scores, i) <= 1.0
  {
    WinnersUnbeaten(scores, i);
    var w := Winners(scores, MaxScore(scores));
    if i in w {
      UnitShare(|w|, Share(scores));
    }
  }

  /** The hero's counters: the category of seat 0's best hand; a win exactly
      when no seat beats seat 0; and an equity share of one over the number
      of winners on a win and zero otherwise. */
  lemma TrialOutcomeSpec(deck: seq<Card>, n: nat)
    requires 1 <= n && 2 * n + 5 <= |deck|
    ensures var o := TrialOutcome(deck, n); var scores := SeatScores(deck, n);
      && o.heroType == SeatBest(deck, n, 0).1
      && (o.heroWins <==> forall j :: 0 <= j < n ==> !Below(scores[0], scores[j]))
      && (o.heroWins ==> o.heroEquity == 1.0 / (|Winners(scores, MaxScore(scores))| as real))
      && (!o.heroWins ==> o.heroEquity == 0.0)
      && (o.heroEquity > 0.0 <==> o.heroWins)
      && 0.0 <= o.heroEquity <= 1.0
  {
    SeatShare(SeatScores(deck, n), 0);
  }

  // ---------------------------------------------------------------------
  // The loop body of `simulate`

  /** "Evaluate each player's best hand": `best_five_of_seven` on each seat's
      hole cards plus the board, collecting `scores` and `type_indices`. */
  method ScoreSeats(deck: seq<Card>, n: nat) returns (scores: seq<seq<int>>, types: seq<TypeIndex>)
    requires 2 * n + 5 <= |deck|
    ensures scores == SeatScores(deck, n)
    ensures |types| == n && forall j :: 0 <= j < n ==> types[j] == SeatBest(deck, n, j).1
  {
    var hands := seq(n, i requires 0 <= i < n => HoleCards(deck, i));
    var community := Community(deck, n);
    ghost var allScores := SeatScores(deck, n);
    ghost var allTypes := seq(n, j requires 0 <= j < n => SeatBest(deck, n, j).1);
    scores := [];
    types := [];
    for i := 0 to n
      invariant scores == allScores[..i] && types == allTypes[..i]
    {
      var seven := hands[i] + community;
      assert seven == SeatCards(deck, n, i);
      var r := BestFiveOfSeven(seven);
      assert r.value == SeatBest(deck, n, i);
      PrefixStep(allScores, i);
      PrefixStep(allTypes, i);
      scores := scores + [r.value.0];
      types := types + [r.value.1];
    }
    PrefixAll(allScores);
    PrefixAll(allTypes);
  }

  lemma PrefixStep<T>(s: seq<T>, i: int)
    requires 0 <= i < |s|
    ensures s[..i + 1] == s[..i] + [s[i]]
  {
  }

  lemma PrefixAll<T>(s: seq<T>)
    ensures s[..|s|] == s
  {
  }

  /** Deals hole cards and the board, scores every seat, finds the winners
      and the hero's share. */
  method DealTrial(deck: seq<Card>, n: int) returns (o: Outcome)
    requires |deck| == 52 && IsShuffledDeck(deck) && MIN_PLAYERS <= n <= MAX_PLAYERS
    ensures o == TrialOutcome(deck, n)
  {
    var scores, types := ScoreSeats(deck, n);
    var best := MaxScore(scores);
    var winners := Winners(scores, best);
    var heroEquity := 0.0;
    if 0 in winners {
      heroEquity := 1.0 / (|winners| as real);
    }
    o := Outcome(types[0], 0 in winners, heroEquity);
  }
}
