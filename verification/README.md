# Worst Case Hold'em poker engine — a Dafny model

This project models the engine of a poker-odds toolkit that compares standard
Texas Hold'em hand categories with a "Worst Case Hold'em" ranking made of ten
bespoke pattern rules. The engine has these parts:

* the 52-card deck of `(rank, suit)` pairs (ranks 2..14, suits 0..3);
* `evaluate_5card_hand`, the standard five-card evaluator. It returns a score
  tuple compared lexicographically and an index into `HAND_TYPES`;
* `best_five_of_seven`, which scores a seven-card holding by the best of its
  21 five-card sub-hands;
* the per-deal body of `simulate`: deal two hole cards per seat and five
  community cards off a shuffled deck, find each seat's best hand and the seats
  that share the top score, then credit the hero (seat 0) with a win and an
  equity share. The rest of `simulate` folds the deals into per-category
  counters and derives four probabilities per category;
* `classify_worst_case_hand`: ten pattern predicates checked in a fixed
  first-match-wins cascade from most unlucky (PERFECT_MISDEAL) down to
  LOW_CARD;
* `enumerate_standard_frequencies` and `enumerate_worst_case_frequencies`,
  which classify each of the C(52, 5) = 2,598,960 five-card hands once and
  count the categories.

Modules, leaf first:

* `Results`: Option, Result and the error kinds.
* `CounterMaps`: integer `Counter`s as maps, and sums of their entries over a list of names.
* `Multiplicity`: `Counter` arithmetic, counting sorts over a bounded rank range, and multiplicity profiles.
* `Cards`: cards and the deck.
* `Combinatorics`: `itertools.combinations` in its own order, and binomials.
* `ScoreOrder`: Python's tuple `<`, and the first-maximum scan.
* `StandardEval`: the evaluator, written as it is coded.
* `StandardRanking`: an independent definition of each category, and proofs that the evaluator meets it.
* `BestOfSeven`
* `Deal`: one trial.
* `Tally`: the `simulate` loops.
* `WorstCase`
* `Enumeration`

Scores are `seq<int>` compared by `Below`, which is Python's lexicographic tuple
order (a proper prefix is smaller). Floats are `real`. A Python `Counter` is a
`map` read through a default of zero (`NatAt`, `RealAt`).

The model follows the code:

* `best_five_of_seven` and `simulate` use only the standard evaluator. No
  worst-case variant of either exists in the code, so none is modelled.
* Scores keep their variable-length tuple form; they are not padded to a
  fixed shape.
* A bad player count is detected only when the loop reaches that count. Rows
  of earlier counts have already been produced by then (see Left out for the
  file side).
* The trial count `T` is an integer. `range(T)` runs `max(T, 0)` deals.
  `T == 0` makes `simulate` divide by zero, which is modelled as an error. A
  negative `T` raises nothing and yields rows of zero probabilities.

## Model

| member | source | states |
|---|---|---|
| Cards.DeckSpec | texas_holdem_sim.py:10-12 | the deck has 52 cards, no card twice, every (rank, suit) pair present, and card i is (RANKS[i/4], SUITS[i%4]) |
| Cards.DeckPosition | worst_case_holdem.py:13-15 | every card of the rank/suit domain sits at some position of the deck |
| Cards.ShuffledDeckDistinct | texas_holdem_sim.py:205-206 | a permutation of the deck has 52 distinct cards |
| Multiplicity.CountIsMultiplicity | texas_holdem_sim.py:62 | `Count(xs, v)`, the Counter entry of v, is the multiset multiplicity of v |
| Multiplicity.SortDownIsSortedPermutation | texas_holdem_sim.py:58 | sorting ranks in reverse gives a descending rearrangement of the same ranks |
| Multiplicity.UniqDownSpec | texas_holdem_sim.py:69 | `sorted(set(ranks), reverse=True)` holds exactly the ranks present, strictly descending |
| Multiplicity.UniqUpSpec | worst_case_holdem.py:192 | `sorted(set(ranks))` holds exactly the ranks present, strictly ascending |
| Multiplicity.WithCountSpec | worst_case_holdem.py:136 | the ranks counted exactly c times are listed once each, strictly descending |
| Multiplicity.ProfileMultiplicity | worst_case_holdem.py:52 | the sorted Counter values, as a multiset, hold each multiplicity c as often as there are values counted c times |
| Combinatorics.CombinationsExactlyOnce | texas_holdem_sim.py:39-41 | over distinct items, `combinations(s, k)` lists every k-element subsequence of s, and no other, exactly once |
| Combinatorics.CombinationsCount | texas_holdem_sim.py:38 | `combinations(s, k)` has C(\|s\|, k) entries |
| Combinatorics.SevenChooseFive | texas_holdem_sim.py:38 | C(7, 5) = 21 |
| Combinatorics.DeckChooseFive | standard_holdem_odds.py:14 | C(52, 5) = 2,598,960 |
| ScoreOrder.BelowIrreflexive | texas_holdem_sim.py:43 | no score is below itself |
| ScoreOrder.BelowTransitive | texas_holdem_sim.py:43 | tuple `<` is transitive |
| ScoreOrder.BelowTrichotomy | texas_holdem_sim.py:43 | for any two scores, exactly one of below, equal or above holds |
| ScoreOrder.FirstEntryDecides | texas_holdem_sim.py:54-55 | a lower first entry (the category) puts a score below any score with a higher one, whatever follows |
| ScoreOrder.FirstMaxSpec | texas_holdem_sim.py:41-45 | the `score > best` scan finds nothing only on an empty list; otherwise it returns the first element whose key no other key exceeds, every earlier key being strictly below it |
| StandardEval.HandTypeIndices | texas_holdem_sim.py:14-25 | HAND_TYPES lists ten distinct names, and each `HAND_TYPES.index(name)` constant is that name's position |
| StandardEval.ScanMembers | texas_holdem_sim.py:62-64 | the scan of `counts_sorted` lists exactly the (rank, count) pairs of the Counter that lie at or before its current position |
| StandardEval.ScanOrdered | texas_holdem_sim.py:64 | the scan lists pairs in descending (count, rank) order |
| StandardEval.CountsSortedMembers | texas_holdem_sim.py:62-64 | `counts_sorted` holds exactly the pairs (r, c) with c >= 1 and Counter(ranks)[r] == c |
| StandardEval.CountsSortedShape | texas_holdem_sim.py:64 | `counts_sorted` is descending by (count, rank) and has every entry the cascade indexes |
| StandardEval.SortedRanks | texas_holdem_sim.py:58 | the sorted ranks keep the hand's length and rank multiplicities, lie in 2..14 and descend |
| StandardEval.Evaluate | texas_holdem_sim.py:57-167 | on five cards the score has at least two entries and its first entry, the category, equals the returned type index |
| StandardEval.Decide | texas_holdem_sim.py:90-167 | every branch of the cascade returns a score whose first entry is the type index it returns |
| StandardEval.Evaluate5CardHand | texas_holdem_sim.py:50-57 | the assertion fails exactly when the hand does not have five cards; otherwise the type index lies in HAND_TYPES and heads the score |
| StandardRanking.FlushTest | texas_holdem_sim.py:66 | `len(set(suits)) == 1` holds exactly when every card has the first card's suit |
| StandardRanking.UniqDownIsDistinctRanks | texas_holdem_sim.py:69 | `uniq_ranks` is the strictly descending list of the hand's distinct ranks |
| StandardRanking.StraightSound | texas_holdem_sim.py:68-80 | a detected straight really is five consecutive ranks ending at its high card, or the wheel with high card 5 |
| StandardRanking.StraightComplete | texas_holdem_sim.py:68-80 | every run of five consecutive ranks is detected with its top rank as high card, and the wheel A-2-3-4-5 with high card 5 |
| StandardRanking.StraightTest | texas_holdem_sim.py:68-80 | the straight test reports high card h exactly when the ranks form the straight ending at h; it finds one exactly when some straight is present |
| StandardRanking.CountsSortedGroups | texas_holdem_sim.py:62-64 | `counts_sorted` is ordered, indexable and holds exactly the Counter's (rank, count) pairs |
| StandardRanking.FourTest | texas_holdem_sim.py:101 | `counts_sorted[0][1] == 4` exactly when some rank occurs four times |
| StandardRanking.FullHouseTest | texas_holdem_sim.py:110 | the full-house test holds exactly when some rank occurs three times and another twice |
| StandardRanking.ThreeTest | texas_holdem_sim.py:133 | `counts_sorted[0][1] == 3` exactly when some rank occurs three times |
| StandardRanking.TwoPairTest | texas_holdem_sim.py:143 | the two-pair test holds exactly when two different ranks occur twice each |
| StandardRanking.PairTest | texas_holdem_sim.py:153 | once no rank occurs three or four times, `counts_sorted[0][1] == 2` exactly when some rank occurs twice |
| StandardRanking.SameCounts | texas_holdem_sim.py:58 | every category test depends only on the rank multiplicities, so sorting the ranks changes no test |
| StandardRanking.EvaluateObserves | texas_holdem_sim.py:58-80 | the evaluator is the cascade applied to the sorted ranks, the Counter's pairs, the straight's high card and the flush test, each meaning what the hand shows |
| StandardRanking.DecideCategory | texas_holdem_sim.py:90-167 | from correct observations the cascade returns the category of the independent ranking |
| StandardRanking.EvaluateCategory | texas_holdem_sim.py:50-167 | every five-card hand gets the strongest category whose definition it meets: straight flush (royal when ace-high), four of a kind, full house, flush, straight, three of a kind, two pair, one pair, high card |
| StandardRanking.CategoryDominates | texas_holdem_sim.py:90-167 | a hand of a lower category scores strictly below a hand of a higher one |
| StandardRanking.DecideStraightScores | texas_holdem_sim.py:90-99 | straight-type scores are (category, straight's high card), and the royal flush is exactly (9, 14) |
| StandardRanking.DecideGroupScores | texas_holdem_sim.py:101-117 | four of a kind scores (7, quad rank, kicker), full house (6, trip rank, pair rank) and two pair (2, high pair, low pair, kicker), each rank held as often as its slot says |
| StandardRanking.DecideKickerScores | texas_holdem_sim.py:133-161 | three of a kind and one pair score (category, grouped rank, kickers), the kickers being every rank held once, strictly descending |
| StandardRanking.KickersAfterFirst | texas_holdem_sim.py:136-137 | the singles after the leading group, sorted in reverse, are exactly the ranks held once |
| StandardRanking.DecideRankScores | texas_holdem_sim.py:119-124 | flush and high card score (category, all five ranks descending) |
| StandardRanking.EvaluateScore | texas_holdem_sim.py:90-167 | every score means its category's tiebreak: straight high card, grouped ranks by multiplicity, kickers descending, or all ranks descending |
| BestOfSeven.FiveCardHands | texas_holdem_sim.py:41 | every entry of `combinations(cards, 5)` has five cards |
| BestOfSeven.Scores | texas_holdem_sim.py:41-42 | one score per sub-hand |
| BestOfSeven.ScoresAt | texas_holdem_sim.py:42 | entry i is `evaluate_5card_hand` of sub-hand i |
| BestOfSeven.FirstBestHand | texas_holdem_sim.py:41-45 | over a non-empty list of scored hands the loop keeps the first hand no other hand beats |
| BestOfSeven.BestOfSevenFirst | texas_holdem_sim.py:38-47 | seven cards give 21 five-card sub-hands, and the result is the first of them in combination order whose score none exceeds |
| BestOfSeven.BestOfSome | texas_holdem_sim.py:41-47 | on seven cards the loop always ends with a best hand |
| BestOfSeven.BestOfSevenMaximal | texas_holdem_sim.py:28-47 | the result is the score of some five-card sub-hand of the seven cards, and no five-card sub-hand scores above it |
| BestOfSeven.NoSubHandAbove | texas_holdem_sim.py:41-45 | a score no listed combination beats is beaten by no five-card sub-hand at all |
| BestOfSeven.ScanHands | texas_holdem_sim.py:35-47 | the loop's final `(best_score, best_type_idx)` is the first-maximum of the sub-hands' scores |
| BestOfSeven.BestFiveOfSeven | texas_holdem_sim.py:28-47 | the assertion fails exactly when the holding does not have seven cards; otherwise the result is the best sub-hand's score and type |
| Deal.SeatCards | texas_holdem_sim.py:218 | each seat plays from seven cards |
| Deal.SeatScores | texas_holdem_sim.py:215-221 | one score per seat |
| Deal.DealDisjoint | texas_holdem_sim.py:209-212 | on a shuffled deck with 2..9 seats, no two seats share a hole card, no hole card is on the board, and each seat's seven cards are distinct |
| Deal.MaxScoreSpec | texas_holdem_sim.py:224 | `max(scores)` is one of the scores and no score exceeds it |
| Deal.WinnersSpec | texas_holdem_sim.py:225 | the winners are exactly the seats whose score equals the given best, in increasing seat order |
| Deal.WinnersUnbeaten | texas_holdem_sim.py:224-225 | a seat wins exactly when no seat's score exceeds its own |
| Deal.SomeWinner | texas_holdem_sim.py:224-225 | some seat always wins |
| Deal.EquityConserved | texas_holdem_sim.py:230-233 | the seats' equities add up to exactly one pot, and each lies in [0, 1] |
| Deal.SeatShare | texas_holdem_sim.py:230-233 | a seat's equity is 1/len(winners) when no seat beats it and 0 otherwise |
| Deal.TrialOutcomeSpec | texas_holdem_sim.py:215-241 | the hero's category is seat 0's best-hand type; the hero wins exactly when no seat beats seat 0; the equity is 1/len(winners) on a win and 0 otherwise, and it is positive exactly on a win |
| Deal.ScoreSeats | texas_holdem_sim.py:215-221 | the loop builds, seat by seat, the scores and type indices `best_five_of_seven` gives each seat |
| Deal.DealTrial | texas_holdem_sim.py:208-233 | a trial's dealing, scoring and winner selection yield the trial outcome the specification function defines |
| Tally.Outcomes | texas_holdem_sim.py:203 | one outcome per deal |
| CounterMaps.SumNatBump | texas_holdem_sim.py:228 | incrementing one Counter entry raises the total over the listed names by that amount when the key is listed |
| StandardEval.HandTypeNames | texas_holdem_sim.py:227 | `HAND_TYPES[type_idx]` is always a listed name, and the names are distinct |
| Tally.RecordKeys | texas_holdem_sim.py:227-241 | one deal's updates only touch keys that are category names |
| Tally.AccumulateKeys | texas_holdem_sim.py:198-241 | after any number of deals every Counter key is a category name |
| Tally.AccumulateCounts | texas_holdem_sim.py:228 | the category counts add up to the number of deals |
| Tally.AccumulateEquity | texas_holdem_sim.py:235-241 | the per-category equity adds up to the overall equity |
| Tally.AccumulateBounds | texas_holdem_sim.py:198-241 | the overall equity lies in [0, deals]; per category, wins never exceed occurrences and equity lies in [0, occurrences] |
| Tally.OutcomesBounded | texas_holdem_sim.py:230-233 | every deal's hero equity lies in [0, 1] |
| Tally.AccumulateSnoc | texas_holdem_sim.py:203-241 | the counters after t + 1 deals are those after t deals updated by deal t |
| Tally.PlayTrials | texas_holdem_sim.py:198-241 | the trial loop leaves the counters that folding the deals' outcomes defines |
| Tally.Rows | texas_holdem_sim.py:253-262 | one row per category name |
| Tally.RowsFor | texas_holdem_sim.py:253-262 | one row per listed name |
| Tally.RowsAt | texas_holdem_sim.py:253-262 | row i is the row of the i-th listed name |
| Tally.RowsSums | texas_holdem_sim.py:253-262 | the hand probabilities add up to the total count over the deals, and the joint ones to the total equity over the deals |
| Tally.RowBounds | texas_holdem_sim.py:243-262 | a row's P(hand) is count/deals, and every probability lies in [0, 1] with P(hand and win) <= P(hand) |
| Tally.RowsTotals | texas_holdem_sim.py:243-262 | over one player count, P(hand) adds up to 1 across categories and P(hand and win) adds up to P(overall win) |
| Tally.RowsBounded | texas_holdem_sim.py:243-262 | row i is HAND_TYPES[i]'s and its probabilities lie in [0, 1] |
| Tally.RunPlayerCount | texas_holdem_sim.py:194-262 | one player count fails exactly when it lies outside 2..9 or the trial count is zero, and otherwise yields ten rows |
| Tally.NegativeTrials | texas_holdem_sim.py:203-262 | a negative trial count runs no deal, raises nothing, and yields ten rows whose probabilities are all zero |
| Tally.Steps | texas_holdem_sim.py:194 | one result per player count |
| Tally.Simulate | texas_holdem_sim.py:194-262 | the loop over player counts yields the fold of the per-count results |
| Tally.ChainStops | texas_holdem_sim.py:195-196 | the run stops at the first failing player count and reports its error |
| Tally.ChainSpec | texas_holdem_sim.py:194-262 | the fold succeeds exactly when every step does, and then holds each step's ten rows in order |
| Tally.SimulateSpec | texas_holdem_sim.py:194-262 | the run succeeds exactly when every player count lies in 2..9 and the trial count is not zero; it then holds, in order, ten rows per count computed from that count's deals |
| Tally.SimulateFirstError | texas_holdem_sim.py:195-196 | the first bad count decides the error: the range `ValueError`, or the division by zero when the trial count is zero |
| WorstCase.Value | worst_case_holdem.py:27-36 | the enum values lie in 1..10 |
| WorstCase.ValueInjective | worst_case_holdem.py:18-36 | distinct categories have distinct values, so the values order the categories totally |
| WorstCase.SuitsOfRankSnoc | worst_case_holdem.py:114-115 | appending one card appends its suit to its rank's list only |
| WorstCase.SuitsOfRankZipped | worst_case_holdem.py:114 | `zip` stops at the shorter list |
| WorstCase.SuitsOfAbsentRank | worst_case_holdem.py:113-115 | a rank not in the hand has no suits |
| WorstCase.SuitsOfRankLength | worst_case_holdem.py:113-115 | a rank's list holds one suit per card of that rank |
| WorstCase.SuitsOfRankMember | worst_case_holdem.py:113-115 | a suit is in a rank's list exactly when a card of that rank has that suit |
| WorstCase.GroupStep | worst_case_holdem.py:114-115 | one `setdefault(r, []).append(s)` step keeps `by_rank` grouping the cards seen so far |
| WorstCase.GroupedZipped | worst_case_holdem.py:113-115 | grouping the zipped prefix groups the whole zip |
| WorstCase.GroupByRank | worst_case_holdem.py:113-115 | `by_rank` has a key exactly for each rank present, mapped to that rank's suits in hand order |
| WorstCase.FindSplitPair | worst_case_holdem.py:117-123 | the scan returns True exactly when some rank's list is a pair split between the main suit and the off suit |
| WorstCase.ColorClashScan | worst_case_holdem.py:103-123 | the imperative `_is_color_clash` agrees with its definition |
| WorstCase.FauxFlushSuits | worst_case_holdem.py:108-110 | on a faux flush, `main_suit` is the only suit held four times, `off_suit` the only one held once, and no other suit is present |
| WorstCase.FauxFlushProfile | worst_case_holdem.py:50-52 | multiplicities 1 and 4 mean one value held four times, one held once, and no other present |
| WorstCase.FauxFlushSpec | worst_case_holdem.py:50-52 | `_is_faux_flush` holds exactly when four cards share one suit and the fifth has another |
| WorstCase.FourAndOne | worst_case_holdem.py:50-52 | a suit held four times, another held once and no third suit give multiplicities 1 and 4 |
| WorstCase.GapSpec | worst_case_holdem.py:67-71 | `_is_gap(sorted(set(ranks)))` holds exactly when the hand's ranks are r, r+2, r+4, r+6, r+8 for some r |
| WorstCase.BrokenPairSpec | worst_case_holdem.py:126-149 | `_is_broken_pair` holds exactly when the rank multiplicities are 2, 1, 1, 1 and the pair's rank is at most 9 |
| WorstCase.PairRank | worst_case_holdem.py:136-140 | with multiplicities 2, 1, 1, 1 exactly one rank is paired |
| WorstCase.ColorClashSpec | worst_case_holdem.py:103-123 | `_is_color_clash` holds exactly when the hand is a faux flush and some rank is held exactly twice, once in the four-card suit and once in the lone suit |
| WorstCase.ClassifyWorstCaseHand | worst_case_holdem.py:182-183 | the classifier fails, with its `ValueError` message, exactly when the hand does not have five cards |
| WorstCase.CascadeMostUnlucky | worst_case_holdem.py:194-246 | the cascade picks a category exactly when the hand shows its pattern and shows no more unlucky one |
| WorstCase.ClassifyMostUnlucky | worst_case_holdem.py:168-246 | a five-card hand is classified as the most unlucky category whose pattern it shows, LOW_CARD being shown by every hand |
| WorstCase.RoyalRanks | worst_case_holdem.py:161-165 | five cards of ranks 10..14 are a PERFECT_MISDEAL in one suit and a DEAD_ROYAL otherwise |
| Enumeration.CounterStep | worst_case_holdem.py:258 | `counts[k] += 1` for the next key extends the Counter of the keys seen |
| Enumeration.CounterOfCounts | worst_case_holdem.py:255-259 | the Counter entry of k is the number of positions holding k |
| Enumeration.CounterOfKeys | worst_case_holdem.py:255-259 | the Counter's keys are among the names every key is drawn from |
| Enumeration.CounterOfTotal | worst_case_holdem.py:255-259 | the Counter's entries over distinct names covering every key add up to the number of keys |
| Enumeration.CountBy | standard_holdem_odds.py:13-18 | the counting loop leaves the Counter of the hands' keys |
| Enumeration.CountByTotal | standard_holdem_odds.py:13-18 | the counts cover only listed names and add up to the number of hands |
| Enumeration.CountByCount | standard_holdem_odds.py:13-18 | the count of k is the number of hands whose key is k |
| Enumeration.AllHands | standard_holdem_odds.py:14 | every hand of `combinations(DECK, 5)` has five cards |
| Enumeration.DeckShape | standard_holdem_odds.py:14 | the deck has 52 distinct cards |
| Enumeration.AllHandsCount | standard_holdem_odds.py:14 | there are 2,598,960 five-card hands |
| Enumeration.AllHandsOnce | standard_holdem_odds.py:14 | each five-card subset of the deck is visited exactly once and nothing else is visited |
| Enumeration.StandardKey | standard_holdem_odds.py:15-16 | a hand's key is a name of HAND_TYPES |
| Enumeration.StandardKeyName | standard_holdem_odds.py:15-16 | a hand's key is the name of category t exactly when the evaluator gives it type t |
| Enumeration.TypeNameInjective | texas_holdem_sim.py:14-25 | distinct type indices have distinct names |
| Enumeration.EnumerateStandardFrequencies | standard_holdem_odds.py:10-18 | the enumeration returns the Counter of the categories of all five-card hands |
| Enumeration.StandardCount | standard_holdem_odds.py:10-18 | the count of a category's name is the number of hands the evaluator puts in that category |
| Enumeration.StandardFrequencies | standard_holdem_odds.py:10-18 | the keys are category names and the counts add up to 2,598,960 |
| Enumeration.WorstCaseTypesListed | worst_case_holdem.py:18-36 | the list of worst-case categories names each category once |
| Enumeration.WorstCaseKey | worst_case_holdem.py:257-258 | a hand's key is the category the classifier returns for it |
| Enumeration.EnumerateWorstCaseFrequencies | worst_case_holdem.py:249-259 | the enumeration returns the Counter of the worst-case categories of all five-card hands |
| Enumeration.WorstCaseCount | worst_case_holdem.py:249-259 | the count of a category is the number of hands classified into it |
| Enumeration.WorstCaseFrequencies | worst_case_holdem.py:249-259 | the counts over the ten categories add up to 2,598,960, so every hand gets a category and none is skipped |

## Left out

- File output: the CSV writer, the markdown summary, argument parsing, plotting and the trend sheet are reporting around the engine. They are not modelled.
- Simulate: if a later player count fails, rows of earlier counts have already been written to the CSV file. The model returns only the error, because file contents are not modelled.
- Randomness: `random.shuffle` is replaced by the shuffled decks, passed in as parameters and required to be permutations of `DECK`. Nothing is claimed about the uniformity of the shuffle or about Monte Carlo convergence.
- Floating point: probabilities and equities are exact reals. Rounding of `1.0 / len(winners)` and of the divisions is not modelled.
- Tally.NegativeTrials: the overall probability `0.0 / float(T)` for a negative `T` is Python's negative zero. Reals have no signed zero, so the model gives plain zero.
- The unused helpers `_suit_to_color`, `_is_low_card` and `_is_double_broken_pair` are not modelled, since the classifier never calls them.
- `WorstCaseHandEval` is modelled as the `Result` of the classifier. Its `None` hand type is never produced, so the `None` key of the enumeration's Counter never occurs.
- EnumerateStandardFrequencies: the 2,598,960 evaluations are not carried out by the verifier. The frequency table of each category (4 royal flushes, 36 straight flushes, …) is therefore not proved; only the totals and the meaning of each count are.
- EnumerateWorstCaseFrequencies: likewise, the concrete worst-case frequencies are not proved; only the totals and the meaning of each count are.
- Both enumerations share one counting loop, `Enumeration.CountBy`, called with the per-hand key. Module-level `DECK` is passed as a parameter equal to `Deck()`.
- `hero_type_win_counts` is tallied and bounded, but it feeds no row, just as in the code.
- Dictionary iteration order in `_is_color_clash` is not modelled: the result of the scan does not depend on it, and `max` over the suit counts has a unique maximum on a faux flush.
- Every player count draws its own list of shuffled decks. The shared random generator state between counts is not modelled.
