/** Cards and the 52-card deck shared by both rule sets: a card is a
    `(rank, suit)` pair with ranks 2..14 (11..14 are J, Q, K, A) and suits
    0..3, of which only equality matters. */
module Cards {

  type Rank = r: int | 2 <= r <= 14 witness 2
  type Suit = s: int | 0 <= s <= 3 witness 0

  datatype Card = Card(rank: Rank, suit: Suit)

  const RANKS: seq<Rank> := [2, 3, 4, 5, 6, 7, 8, 9, 10, 11, 12, 13, 14]
  const SUITS: seq<Suit> := [0, 1, 2, 3]

  /** The deck in rank-major order: ranks 2..14, each with suits 0..3 in turn. */
  function Deck(): seq<Card> {
    seq(52, i requires 0 <= i < 52 => Card(2 + i / 4, i % 4))
  }

  /** The ranks of a hand, in hand order. */
  function Ranks(cards: seq<Card>): (r: seq<int>)
    ensures |r| == |cards|
    ensures forall i :: 0 <= i < |cards| ==> r[i] == cards[i].rank
  {
    seq(|cards|, i requires 0 <= i < |cards| => cards[i].rank)
  }

  /** The suits of a hand, in hand order. */
  function Suits(cards: seq<Card>): (s: seq<int>)
    ensures |s| == |cards|
    ensures forall i :: 0 <= i < |cards| ==> s[i] == cards[i].suit
  {
    seq(|cards|, i requires 0 <= i < |cards| => cards[i].suit)
  }

  /** Position of a card in `DECK`: four suits per rank, ranks from 2 up. */
  lemma DeckPosition(c: Card) returns (k: nat)
    ensures k < |Deck()| && Deck()[k] == c
  {
    k := 4 * (c.rank - 2) + c.suit;
  }

  /** The deck lists 52 distinct cards, rank-major, and every card is in it. */
  lemma DeckSpec()
    ensures |Deck()| == 52
    ensures forall i, j :: 0 <= i < j < |Deck()| ==> Deck()[i] != Deck()[j]
    ensures forall r: Rank, s: Suit :: Card(r, s) in Deck()
    ensures forall i :: 0 <= i < |Deck()| ==> Deck()[i].rank == RANKS[i / 4] && Deck()[i].suit == SUITS[i % 4]
  {
    forall r: Rank, s: Suit ensures Card(r, s) in Deck() {
      var k := DeckPosition(Card(r, s));
    }
  }

  predicate DistinctCards(cs: seq<Card>) {
    forall i, j :: 0 <= i < j < |cs| ==> cs[i] != cs[j]
  }

  /** A shuffled deck: a permutation of `DECK`, what `random.shuffle(DECK[:])` yields. */
  predicate IsShuffledDeck(deck: seq<Card>) {
    multiset(deck) == multiset(Deck())
  }

  /** In a sequence without repeats every card occurs at most once. */
  lemma {:induction false} DistinctMultiplicity(cs: seq<Card>, c: Card)
    requires DistinctCards(cs)
    ensures multiset(cs)[c] <= 1
  {
    if cs != [] {
      var rest := cs[1..];
      assert cs == [cs[0]] + rest;
      DistinctMultiplicity(rest, c);
      assert cs[0] !in rest;
    }
  }

  /** Conversely, a sequence whose cards occur at most once repeats none. */
  lemma MultiplicityDistinct(cs: seq<Card>)
    requires forall c :: multiset(cs)[c] <= 1
    ensures DistinctCards(cs)
  {
    forall i, j | 0 <= i < j < |cs| ensures cs[i] != cs[j] {
      assert cs == cs[..j] + [cs[j]] + cs[j + 1..];
      assert cs[i] in cs[..j];
      assert multiset(cs)[cs[i]] >= 1 + (if cs[j] == cs[i] then 1 else 0);
    }
  }

  /** A permutation of the deck has 52 cards and repeats none. */
  lemma ShuffledDeckDistinct(deck: seq<Card>)
    requires IsShuffledDeck(deck)
    ensures |deck| == 52
    ensures DistinctCards(deck)
  {
    DeckSpec();
    assert |deck| == |multiset(deck)| == |multiset(Deck())| == 52;
    forall c ensures multiset(deck)[c] <= 1 {
      DistinctMultiplicity(Deck(), c);
    }
    MultiplicityDistinct(deck);
  }
}
