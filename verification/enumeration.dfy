/** The exhaustive tallies of `standard_holdem_odds.py` and
    `worst_case_holdem.py`: every five-card combination of the deck, in
    `itertools.combinations` order, classified once and counted by category
    in a Counter. */
module Enumeration {
  import opened Cards
  import opened Combinatorics
  import opened Results
  import opened StandardEval
  import opened CounterMaps
  import opened WorstCase
  import BestOfSeven

  // ---------------------------------------------------------------------
  // A Counter filled one key at a time

  /** `Counter()` after `counts[k] += 1` for each key in turn. */
  function CounterOf<K>(keys: seq<K>): map<K, nat>
    decreases |keys|
  {
    if keys == [] then map[]
    else
      var m := CounterOf(keys[..|keys| - 1]);
      var k := keys[|keys| - 1];
      m[k := NatAt(m, k) + 1]
  }

  /** The positions of `keys` holding `k`. */
  function Positions<K(==)>(keys: seq<K>, k: K): set<int> {
    set i | 0 <= i < |keys| && keys[i] == k
  }

  /** Counting the key at position `i` turns the Counter of the first `i`
      keys into the Counter of the first `i + 1`. */
  lemma CounterStep<K>(counts: map<K, nat>, keys: seq<K>, i: int, k: K)
    requires 0 <= i < |keys| && counts == CounterOf(keys[..i]) && k == keys[i]
    ensures counts[k := NatAt(counts, k) + 1] == CounterOf(keys[..i + 1])
  {
    assert keys[..i + 1][..i] == keys[..i];
  }

  /** Each key is counted once per position holding it. */
  lemma {:induction false} CounterOfCounts<K>(keys: seq<K>, k: K)
    ensures NatAt(CounterOf(keys), k) == |Positions(keys, k)|
    decreases |keys|
  {
    if keys == [] {
      assert Positions(keys, k) == {};
    } else {
      var n := |keys| - 1;
      var front := keys[..n];
      CounterOfCounts(front, k);
      if keys[n] == k {
        assert Positions(keys, k) == Positions(front, k) + {n};
      } else {
        assert Positions(keys, k) == Positions(front, k);
      }
    }
  }

  /** Only keys that occur become keys of the Counter. */
  lemma {:induction false} CounterOfKeys<K>(keys: seq<K>, names: seq<K>)
    requires forall i :: 0 <= i < |keys| ==> keys[i] in names
    ensures forall k :: k in CounterOf(keys) ==> k in names
    decreases |keys|
  {
    if keys != [] {
      CounterOfKeys(keys[..|keys| - 1], names);
    }
  }

  /** Over a list of names covering every key, the counts add up to the
      number of keys. */
  lemma {:induction false} CounterOfTotal<K>(keys: seq<K>, names: seq<K>)
    requires NoDuplicates(names)
    requires forall i :: 0 <= i < |keys| ==> keys[i] in names
    ensures SumNat(CounterOf(keys), names) == |keys|
    decreases |keys|
  {
    if keys == [] {
      SumNatEmpty<K>(names);
    } else {
      var n := |keys| - 1;
      CounterOfTotal(keys[..n], names);
      SumNatBump(CounterOf(keys[..n]), names, keys[n], 1);
    }
  }

  // ---------------------------------------------------------------------
  // The counting loop both enumerations share

  /** The Counter key of each hand, in order. */
  function KeysBy<K>(hands: seq<seq<Card>>, key: seq<Card> --> K): (r: seq<K>)
    requires forall i :: 0 <= i < |hands| ==> key.requires(hands[i])
    ensures |r| == |hands|
    ensures forall i :: 0 <= i < |hands| ==> r[i] == key(hands[i])
  {
    seq(|hands|, i requires 0 <= i < |hands| => key(hands[i]))
  }

  /** `for combo in ...: counts[key(combo)] += 1`, starting from an empty
      Counter. */
  method CountBy<K>(hands: seq<seq<Card>>, key: seq<Card> --> K) returns (counts: map<K, nat>)
    requires forall i :: 0 <= i < |hands| ==> key.requires(hands[i])
    ensures counts == CounterOf(KeysBy(hands, key))
  {
    ghost var keys := KeysBy(hands, key);
    counts := map[];
    for i := 0 to |hands|
      invariant counts == CounterOf(keys[..i])
    {
      var k := key(hands[i]);
      CounterStep(counts, keys, i, k);
      counts := counts[k := NatAt(counts, k) + 1];
    }
    assert keys[..|hands|] == keys;
  }

  /** Every key is one of `names` and the counts over `names` add up to the
      number of hands. */
  lemma CountByTotal<K>(hands: seq<seq<Card>>, key: seq<Card> --> K, names: seq<K>)
    requires forall i :: 0 <= i < |hands| ==> key.requires(hands[i]) && key(hands[i]) in names
    requires NoDuplicates(names)
    ensures forall k :: k in CounterOf(KeysBy(hands, key)) ==> k in names
    ensures SumNat(CounterOf(KeysBy(hands, key)), names) == |hands|
  {
    var keys := KeysBy(hands, key);
    CounterOfKeys(keys, names);
    CounterOfTotal(keys, names);
  }

  /** The count under `k` is the number of hands whose key is `k`. */
  lemma CountByCount<K>(hands: seq<seq<Card>>, key: seq<Card> --> K, k: K)
    requires forall i :: 0 <= i < |hands| ==> key.requires(hands[i])
    ensures NatAt(CounterOf(KeysBy(hands, key)), k) == |Positions(KeysBy(hands, key), k)|
    ensures forall i :: i in Positions(KeysBy(hands, key), k) <==> 0 <= i < |hands| && key(hands[i]) == k
  {
    CounterOfCounts(KeysBy(hands, key), k);
  }

  // ---------------------------------------------------------------------
  // The hands

  /** `combinations(DECK, 5)`. The module-level `DECK` is passed in as
      `deck`; the operations below require it to be `Deck()`. */
  function AllHands(deck: seq<Card>): (r: seq<seq<Card>>)
    ensures forall i :: 0 <= i < |r| ==> |r[i]| == 5
  {
    BestOfSeven.FiveCardHands(deck);
    Combinations(deck, 5)
  }

  lemma DeckShape(deck: seq<Card>)
    requires deck == Deck()
    ensures |deck| == 52 && NoRepeats(deck)
  {
    DeckSpec();
  }

  /** There are C(52, 5) = 2598960 five-card hands. */
  lemma AllHandsCount(deck: seq<Card>)
    requires deck == Deck()
    ensures |AllHands(deck)| == 2598960
  {
    DeckShape(deck);
    CombinationsCount(deck, 5);
    DeckChooseFive();
  }

  /** The loops visit every five-card hand of the deck exactly once: no two
      hands are alike, and every five cards taken from the deck in deck
      order are one of them. */
  lemma AllHandsOnce(deck: seq<Card>)
    requires deck == Deck()
    ensures NoRepeats(AllHands(deck))
    ensures forall c :: c in AllHands(deck) <==> |c| == 5 && SubseqOf(c, deck)
  {
    DeckShape(deck);
    CombinationsExactlyOnce(deck, 5);
  }

  // ---------------------------------------------------------------------
  // `enumerate_standard_frequencies`

  /** The Counter key of a hand: `HAND_TYPES[type_idx]`, the score being
      discarded. */
  function StandardKey(hand: seq<Card>): (r: string)
    requires |hand| == 5
    ensures r in HAND_TYPES
  {
    var (_, typeIdx) := Evaluate(hand);
    HandTypeNames();
    TypeName(typeIdx)
  }

  /** A hand is counted under a category's name exactly when the evaluator
      puts it in that category. */
  lemma StandardKeyName(hand: seq<Card>, t: TypeIndex)
    requires |hand| == 5
    ensures StandardKey(hand) == TypeName(t) <==> Evaluate(hand).1 == t
  {
    TypeNameInjective(Evaluate(hand).1, t);
  }

  lemma TypeNameInjective(a: TypeIndex, b: TypeIndex)
    ensures TypeName(a) == TypeName(b) <==> a == b
  {
    HandTypeNames();
    if a < b {
      assert HAND_TYPES[a] != HAND_TYPES[b];
    } else if b < a {
      assert HAND_TYPES[b] != HAND_TYPES[a];
    }
  }

  /** `enumerate_standard_frequencies()`: one increment per combination of
      the deck under its category's name. */
  method EnumerateStandardFrequencies(deck: seq<Card>) returns (counts: map<string, nat>)
    requires deck == Deck()
    ensures counts == CounterOf(KeysBy(AllHands(deck), StandardKey))
  {
    counts := CountBy(AllHands(deck), StandardKey);
  }

  /** Over any list of five-card hands, a category's count is the number of
      hands the evaluator puts in that category. */
  lemma StandardCount(hands: seq<seq<Card>>, t: TypeIndex)
    requires forall i :: 0 <= i < |hands| ==> |hands[i]| == 5
    ensures NatAt(CounterOf(KeysBy(hands, StandardKey)), TypeName(t)) == |OfType(hands, t)|
  {
    var keys := KeysBy(hands, StandardKey);
    CountByCount(hands, StandardKey, TypeName(t));
    forall i ensures i in Positions(keys, TypeName(t)) <==> i in OfType(hands, t) {
      if 0 <= i < |hands| {
        StandardKeyName(hands[i], t);
      }
    }
    assert Positions(keys, TypeName(t)) == OfType(hands, t);
  }

  /** The positions of the hands the evaluator puts in category `t`. */
  function OfType(hands: seq<seq<Card>>, t: TypeIndex): set<int>
    requires forall i :: 0 <= i < |hands| ==> |hands[i]| == 5
  {
    set i | 0 <= i < |hands| && Evaluate(hands[i]).1 == t
  }

  /** The standard tally of the whole deck counts C(52, 5) = 2598960 hands,
      each under a name of `HAND_TYPES`. */
  lemma StandardFrequencies(deck: seq<Card>)
    requires deck == Deck()
    ensures forall k :: k in CounterOf(KeysBy(AllHands(deck), StandardKey)) ==> k in HAND_TYPES
    ensures SumNat(CounterOf(KeysBy(AllHands(deck), StandardKey)), HAND_TYPES) == 2598960
  {
    AllHandsCount(deck);
    HandTypeNames();
    CountByTotal(AllHands(deck), StandardKey, HAND_TYPES);
  }

  // ---------------------------------------------------------------------
  // `enumerate_worst_case_frequencies`

  /** Every `WorstCaseHandType` member, in enum order. */
  const WORST_CASE_TYPES: seq<WorstCaseHandType> := [
    LowCard, BrokenPair, FauxFlush, MirrorHand, ColorDisassociate,
    Gap, AlmostFullHouse, ColorClash, DeadRoyal, PerfectMisdeal]

  lemma WorstCaseTypesListed()
    ensures NoDuplicates(WORST_CASE_TYPES)
    ensures forall t :: t in WORST_CASE_TYPES
  {
    assert forall i :: 0 <= i < |WORST_CASE_TYPES| ==> Value(WORST_CASE_TYPES[i]) == i + 1;
    forall i, j | 0 <= i < j < |WORST_CASE_TYPES| ensures WORST_CASE_TYPES[i] != WORST_CASE_TYPES[j] {
      assert Value(WORST_CASE_TYPES[i]) != Value(WORST_CASE_TYPES[j]);
    }
    forall t ensures t in WORST_CASE_TYPES {
      assert WORST_CASE_TYPES[Value(t) - 1] == t;
    }
  }

  /** The Counter key of a hand: the `hand_type` of its evaluation. */
  function WorstCaseKey(hand: seq<Card>): (r: WorstCaseHandType)
    requires |hand| == 5
    ensures ClassifyWorstCaseHand(hand) == Ok(r)
  {
    var evalResult := ClassifyWorstCaseHand(hand);
    evalResult.value
  }

  /** `enumerate_worst_case_frequencies()`: one increment per combination of
      the deck under its category. */
  method EnumerateWorstCaseFrequencies(deck: seq<Card>) returns (counts: map<WorstCaseHandType, nat>)
    requires deck == Deck()
    ensures counts == CounterOf(KeysBy(AllHands(deck), WorstCaseKey))
  {
    counts := CountBy(AllHands(deck), WorstCaseKey);
  }

  /** Over any list of five-card hands, a category's count is the number of
      hands the classifier puts in it. */
  lemma WorstCaseCount(hands: seq<seq<Card>>, t: WorstCaseHandType)
    requires forall i :: 0 <= i < |hands| ==> |hands[i]| == 5
    ensures NatAt(CounterOf(KeysBy(hands, WorstCaseKey)), t) == |ClassifiedAs(hands, t)|
  {
    var keys := KeysBy(hands, WorstCaseKey);
    CountByCount(hands, WorstCaseKey, t);
    forall i ensures i in Positions(keys, t) <==> i in ClassifiedAs(hands, t) {
      if 0 <= i < |hands| {
        OkInjective(WorstCaseKey(hands[i]), t, ClassifyWorstCaseHand(hands[i]));
      }
    }
    assert Positions(keys, t) == ClassifiedAs(hands, t);
  }

  /** The positions of the hands the classifier puts in category `t`. */
  function ClassifiedAs(hands: seq<seq<Card>>, t: WorstCaseHandType): set<int> {
    set i | 0 <= i < |hands| && ClassifyWorstCaseHand(hands[i]) == Ok(t)
  }

  lemma OkInjective<T>(a: T, t: T, r: Result<T>)
    requires r == Ok(a)
    ensures a == t <==> r == Ok(t)
  {
  }

  /** The worst-case tally of the whole deck counts C(52, 5) = 2598960
      hands. */
  lemma WorstCaseFrequencies(deck: seq<Card>)
    requires deck == Deck()
    ensures SumNat(CounterOf(KeysBy(AllHands(deck), WorstCaseKey)), WORST_CASE_TYPES) == 2598960
  {
    AllHandsCount(deck);
    WorstCaseTypesListed();
    CountByTotal(AllHands(deck), WorstCaseKey, WORST_CASE_TYPES);
  }
}
