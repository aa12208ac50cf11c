/** The per-player-count loop of `simulate`: the hero's counters over many
    deals, and the per-category probabilities computed from them. */
module Tally {
  import opened Cards
  import opened Results
  import opened StandardEval
  import opened Deal
  import opened CounterMaps

  /** `hero_type_counts`, `hero_type_win_counts`,
      `hero_type_equity_win_counts` (Counters keyed by category name) and
      `hero_overall_equity_wins`. */
  datatype Counters = Counters(
    typeCounts: map<string, nat>,
    typeWins: map<string, nat>,
    typeEquity: map<string, real>,
    overallEquity: real)

  /** The float Counters: a missing key reads as zero. */
  function RealAt(m: map<string, real>, k: string): real {
    if k in m then m[k] else 0.0
  }

  /** One deal's updates: the category is counted; a win and a positive
      equity are credited to it; the equity joins the overall total. */
  function Record(c: Counters, o: Outcome): Counters {
    var name := TypeName(o.heroType);
    Counters(
      c.typeCounts[name := NatAt(c.typeCounts, name) + 1],
      if o.heroWins then c.typeWins[name := NatAt(c.typeWins, name) + 1] else c.typeWins,
      if o.heroEquity > 0.0 then c.typeEquity[name := RealAt(c.typeEquity, name) + o.heroEquity] else c.typeEquity,
      c.overallEquity + o.heroEquity)
  }

  /** The counters after the given deals, starting from empty Counters. */
  function Accumulate(os: seq<Outcome>): Counters
    decreases |os|
  {
    if os == [] then Counters(map[], map[], map[], 0.0)
    else Record(Accumulate(os[..|os| - 1]), os[|os| - 1])
  }

  /** The outcome of each deal, one shuffled deck per trial. */
  function Outcomes(decks: seq<seq<Card>>, n: nat): (r: seq<Outcome>)
    requires 1 <= n <= 9
    requires forall t :: 0 <= t < |decks| ==> |decks[t]| == 52
    ensures |r| == |decks|
  {
    seq(|decks|, t requires 0 <= t < |decks| => TrialOutcome(decks[t], n))
  }

  // ---------------------------------------------------------------------
  // Sums over the category names

  function SumReal(m: map<string, real>, names: seq<string>): real {
    if names == [] then 0.0 else RealAt(m, names[0]) + SumReal(m, names[1..])
  }

  lemma {:induction false} SumRealBump(m: map<string, real>, names: seq<string>, k: string, d: real)
    requires NoDuplicates(names)
    ensures SumReal(m[k := RealAt(m, k) + d], names) == SumReal(m, names) + (if k in names then d else 0.0)
  {
    if names != [] {
      assert NoDuplicates(names[1..]);
      SumRealBump(m, names[1..], k, d);
      assert k in names <==> k == names[0] || k in names[1..];
      if k == names[0] {
        assert k !in names[1..];
      }
    }
  }

  lemma {:induction false} SumRealEmpty(names: seq<string>)
    ensures SumReal(map[], names) == 0.0
  {
    if names != [] {
      SumRealEmpty(names[1..]);
    }
  }

  // ---------------------------------------------------------------------
  // What the counters hold

  /** Every key of the counters is a listed name, and wins and equity are
      only ever credited to a category that was counted. */
  ghost predicate KeysCounted(c: Counters, names: seq<string>) {
    && (forall k :: k in c.typeCounts ==> k in names)
    && (forall k :: k in c.typeWins ==> k in c.typeCounts)
    && (forall k :: k in c.typeEquity ==> k in c.typeCounts)
    && (forall k :: NatAt(c.typeCounts, k) == 0 ==> RealAt(c.typeEquity, k) == 0.0)
  }

  lemma RecordKeys(c: Counters, o: Outcome, names: seq<string>)
    requires TypeName(o.heroType) in names
    requires KeysCounted(c, names)
    ensures KeysCounted(Record(c, o), names)
  {
    var name := TypeName(o.heroType);
    var r := Record(c, o);
    assert r.typeCounts.Keys == c.typeCounts.Keys + {name};
    forall k | NatAt(r.typeCounts, k) == 0 ensures RealAt(r.typeEquity, k) == 0.0 {
      assert k != name;
      assert NatAt(c.typeCounts, k) == 0;
      assert RealAt(r.typeEquity, k) == RealAt(c.typeEquity, k);
    }
  }

  lemma {:induction false} AccumulateKeys(os: seq<Outcome>, names: seq<string>)
    requires forall t: TypeIndex :: TypeName(t) in names
    ensures KeysCounted(Accumulate(os), names)
    decreases |os|
  {
    if os != [] {
      var p := os[..|os| - 1];
      AccumulateKeys(p, names);
      RecordKeys(Accumulate(p), os[|os| - 1], names);
    }
  }

  /** After `T` deals the counts over the category names sum to `T`. */
  lemma {:induction false} AccumulateCounts(os: seq<Outcome>, names: seq<string>)
    requires NoDuplicates(names)
    requires forall t: TypeIndex :: TypeName(t) in names
    ensures SumNat(Accumulate(os).typeCounts, names) == |os|
    decreases |os|
  {
    if os != [] {
      var o := os[|os| - 1];
      var c := Accumulate(os[..|os| - 1]);
      AccumulateCounts(os[..|os| - 1], names);
      assert Accumulate(os) == Record(c, o);
      SumNatBump(c.typeCounts, names, TypeName(o.heroType), 1);
    } else {
      SumNatEmpty(names);
    }
  }

  /** The per-category equity sums to the overall equity, as no deal's
      equity is negative (only a positive equity is credited). */
  lemma {:induction false} AccumulateEquity(os: seq<Outcome>, names: seq<string>)
    requires NoDuplicates(names)
    requires forall t: TypeIndex :: TypeName(t) in names
    requires forall t :: 0 <= t < |os| ==> 0.0 <= os[t].heroEquity
    ensures SumReal(Accumulate(os).typeEquity, names) == Accumulate(os).overallEquity
    decreases |os|
  {
    if os != [] {
      var o := os[|os| - 1];
      var c := Accumulate(os[..|os| - 1]);
      AccumulateEquity(os[..|os| - 1], names);
      assert Accumulate(os) == Record(c, o);
      if o.heroEquity > 0.0 {
        SumRealBump(c.typeEquity, names, TypeName(o.heroType), o.heroEquity);
      }
    } else {
      SumRealEmpty(names);
    }
  }

  /** As no deal's equity exceeds 1, no category's wins or equity exceed
      its count, and the overall equity lies between 0 and `T`. */
  lemma {:induction false} AccumulateBounds(os: seq<Outcome>)
    requires forall t :: 0 <= t < |os| ==> 0.0 <= os[t].heroEquity <= 1.0
    ensures var c := Accumulate(os);
      && 0.0 <= c.overallEquity <= |os| as real
      && (forall k :: NatAt(c.typeWins, k) <= NatAt(c.typeCounts, k))
      && (forall k :: 0.0 <= RealAt(c.typeEquity, k) <= NatAt(c.typeCounts, k) as real)
    decreases |os|
  {
    if os != [] {
      AccumulateBounds(os[..|os| - 1]);
    }
  }

  /** The deals of a run meet the premise of `AccumulateBounds`. */
  lemma OutcomesBounded(decks: seq<seq<Card>>, n: nat)
    requires 1 <= n <= 9
    requires forall t :: 0 <= t < |decks| ==> |decks[t]| == 52
    ensures forall t :: 0 <= t < |decks| ==> 0.0 <= Outcomes(decks, n)[t].heroEquity <= 1.0
  {
    forall t | 0 <= t < |decks| ensures 0.0 <= Outcomes(decks, n)[t].heroEquity <= 1.0 {
      TrialOutcomeSpec(decks[t], n);
    }
  }

  // ---------------------------------------------------------------------
  // The rows written per category

  /** One output row. */
  datatype Row = Row(
    numPlayers: int,
    handType: string,
    handProb: real,
    winGivenTypeProb: real,
    handAndWinProb: real,
    overallWinProb: real)

  /** The row for one category: zero probabilities when the hero never held
      it, otherwise its frequency, the hero's equity given it and the joint
      frequency. */
  function RowFor(n: int, c: Counters, total: real, name: string): Row
    requires total != 0.0
  {
    var count := NatAt(c.typeCounts, name) as real;
    var equity := RealAt(c.typeEquity, name);
    if count > 0.0 then Row(n, name, count / total, equity / count, equity / total, c.overallEquity / total)
    else Row(n, name, 0.0, 0.0, 0.0, c.overallEquity / total)
  }

  /** One row per name, in order. */
  function RowsFor(n: int, c: Counters, total: real, names: seq<string>): (r: seq<Row>)
    requires total != 0.0
    ensures |r| == |names|
  {
    if names == [] then [] else [RowFor(n, c, total, names[0])] + RowsFor(n, c, total, names[1..])
  }

  function SumHandProb(rows: seq<Row>): real {
    if rows == [] then 0.0 else rows[0].handProb + SumHandProb(rows[1..])
  }

  function SumHandAndWin(rows: seq<Row>): real {
    if rows == [] then 0.0 else rows[0].handAndWinProb + SumHandAndWin(rows[1..])
  }

  lemma DivSplit(a: real, b: real, t: real)
    requires t > 0.0
    ensures a / t + b / t == (a + b) / t
  {
  }

  lemma DivBounds(a: real, b: real, t: real)
    requires t > 0.0 && 0.0 <= a <= b
    ensures 0.0 <= a / t <= b / t
  {
  }

  lemma UnitRatio(a: real, b: real)
    requires 0.0 <= a <= b && b > 0.0
    ensures 0.0 <= a / b <= 1.0
    ensures a == b ==> a / b == 1.0
  {
  }

  lemma {:induction false} RowsSums(n: int, c: Counters, total: real, names: seq<string>)
    requires total > 0.0
    requires forall k :: NatAt(c.typeCounts, k) == 0 ==> RealAt(c.typeEquity, k) == 0.0
    ensures SumHandProb(RowsFor(n, c, total, names)) == (SumNat(c.typeCounts, names) as real) / total
    ensures SumHandAndWin(RowsFor(n, c, total, names)) == SumReal(c.typeEquity, names) / total
  {
    if names != [] {
      RowsSums(n, c, total, names[1..]);
      var k := names[0];
      DivSplit(NatAt(c.typeCounts, k) as real, SumNat(c.typeCounts, names[1..]) as real, total);
      DivSplit(RealAt(c.typeEquity, k), SumReal(c.typeEquity, names[1..]), total);
    }
  }

  /** The rows written for a trial count `T != 0`, one per entry of
      `HAND_TYPES`, dividing by `float(T)`. */
  function Rows(n: int, c: Counters, trials: int): (r: seq<Row>)
    requires trials != 0
    ensures |r| == |HAND_TYPES|
  {
    RowsFor(n, c, trials as real, HAND_TYPES)
  }

  /** A row's probabilities lie in [0, 1], the joint one at most the
      category's frequency, given counters that obey `AccumulateBounds`. */
  lemma RowBounds(n: int, c: Counters, trials: nat, k: string)
    requires trials > 0 && k in HAND_TYPES
    requires SumNat(c.typeCounts, HAND_TYPES) == trials
    requires 0.0 <= c.overallEquity <= trials as real
    requires 0.0 <= RealAt(c.typeEquity, k) <= NatAt(c.typeCounts, k) as real
    ensures var row := RowFor(n, c, trials as real, k);
      && row.handType == k
      && row.handProb == NatAt(c.typeCounts, k) as real / (trials as real)
      && 0.0 <= row.handAndWinProb <= row.handProb <= 1.0
      && 0.0 <= row.winGivenTypeProb <= 1.0
      && 0.0 <= row.overallWinProb <= 1.0
  {
    var total := trials as real;
    var count := NatAt(c.typeCounts, k) as real;
    var equity := RealAt(c.typeEquity, k);
    SumNatCovers(c.typeCounts, HAND_TYPES, k);
    DivBounds(count, total, total);
    DivBounds(equity, count, total);
    if count > 0.0 {
      UnitRatio(equity, count);
    }
    UnitRatio(c.overallEquity, total);
  }

  /** Over the deals of a run, the category frequencies add up to 1 and the
      joint frequencies add up to the overall win probability. */
  lemma {:induction false} RowsTotals(n: int, os: seq<Outcome>)
    requires |os| > 0
    requires forall t :: 0 <= t < |os| ==> 0.0 <= os[t].heroEquity
    ensures var c := Accumulate(os); var rows := Rows(n, c, |os|);
      && SumHandProb(rows) == 1.0
      && SumHandAndWin(rows) == c.overallEquity / (|os| as real)
  {
    HandTypeNames();
    RowsForTotals(n, os, HAND_TYPES);
  }

  lemma {:induction false} RowsForTotals(n: int, os: seq<Outcome>, names: seq<string>)
    requires |os| > 0
    requires forall t :: 0 <= t < |os| ==> 0.0 <= os[t].heroEquity
    requires NoDuplicates(names)
    requires forall t: TypeIndex :: TypeName(t) in names
    ensures var c := Accumulate(os); var rows := RowsFor(n, c, |os| as real, names);
      && SumHandProb(rows) == 1.0
      && SumHandAndWin(rows) == c.overallEquity / (|os| as real)
  {
    var c := Accumulate(os);
    var total := |os| as real;
    AccumulateKeys(os, names);
    AccumulateCounts(os, names);
    AccumulateEquity(os, names);
    RowsSums(n, c, total, names);
    UnitRatio(total, total);
    assert SumNat(c.typeCounts, names) as real / total == 1.0;
  }

  /** Row `i` of a run is the row of `HAND_TYPES[i]`, and its probabilities
      lie in [0, 1] with the joint one at most the category's frequency. */
  lemma {:induction false} RowsBounded(n: int, os: seq<Outcome>, i: int)
    requires |os| > 0 && 0 <= i < |HAND_TYPES|
    requires forall t :: 0 <= t < |os| ==> 0.0 <= os[t].heroEquity <= 1.0
    ensures var c := Accumulate(os); var row := Rows(n, c, |os|)[i];
      && row.handType == HAND_TYPES[i]
      && row.handProb == NatAt(c.typeCounts, HAND_TYPES[i]) as real / (|os| as real)
      && 0.0 <= row.handAndWinProb <= row.handProb <= 1.0
      && 0.0 <= row.winGivenTypeProb <= 1.0
      && 0.0 <= row.overallWinProb <= 1.0
  {
    var c := Accumulate(os);
    HandTypeNames();
    AccumulateCounts(os, HAND_TYPES);
    AccumulateBounds(os);
    RowsAt(n, c, |os| as real, HAND_TYPES, i);
    RowBounds(n, c, |os|, HAND_TYPES[i]);
  }

  lemma {:induction false} RowsAt(n: int, c: Counters, total: real, names: seq<string>, i: int)
    requires total != 0.0 && 0 <= i < |names|
    ensures RowsFor(n, c, total, names)[i] == RowFor(n, c, total, names[i])
  {
    if i > 0 {
      RowsAt(n, c, total, names[1..], i - 1);
    }
  }

  /** One name's count is at most the sum over all names. */
  lemma {:induction false} SumNatCovers(m: map<string, nat>, names: seq<string>, k: string)
    requires k in names
    ensures NatAt(m, k) <= SumNat(m, names)
  {
    if names[0] != k {
      SumNatCovers(m, names[1..], k);
    }
  }

  // ---------------------------------------------------------------------
  // The loops

  lemma AccumulateSnoc(os: seq<Outcome>, t: int)
    requires 0 <= t < |os|
    ensures Accumulate(os[..t + 1]) == Record(Accumulate(os[..t]), os[t])
  {
    assert os[..t + 1][..t] == os[..t];
  }

  /** The trials for one player count: one deal per shuffled deck, each
      recorded in the counters. */
  method PlayTrials(n: int, decks: seq<seq<Card>>) returns (c: Counters)
    requires MIN_PLAYERS <= n <= MAX_PLAYERS
    requires forall t :: 0 <= t < |decks| ==> |decks[t]| == 52 && IsShuffledDeck(decks[t])
    ensures c == Accumulate(Outcomes(decks, n))
  {
    c := Counters(map[], map[], map[], 0.0);
    for t := 0 to |decks|
      invariant c == Accumulate(Outcomes(decks, n)[..t])
    {
      var o := DealTrial(decks[t], n);
      AccumulateSnoc(Outcomes(decks, n), t);
      c := Record(c, o);
    }
    assert Outcomes(decks, n)[..|decks|] == Outcomes(decks, n);
  }

  /** The number of deals `range(T)` runs: none when `T` is negative. */
  function DealCount(trials: int): nat {
    if trials < 0 then 0 else trials
  }

  /** What one player count of `simulate` yields: the range check, then the
      rows, whose probabilities divide by `float(T)` and so fail when `T` is
      zero; `decks` holds the shuffled deck of each deal. */
  function PlayerCountRows(n: int, trials: int, decks: seq<seq<Card>>): Result<seq<Row>>
    requires |decks| == DealCount(trials)
    requires forall t :: 0 <= t < |decks| ==> |decks[t]| == 52
  {
    if !(MIN_PLAYERS <= n <= MAX_PLAYERS) then Err(ValueError("num_players must be between 2 and 9 for this sim"))
    else if trials == 0 then Err(ZeroDivisionError)
    else Ok(Rows(n, Accumulate(Outcomes(decks, n)), trials))
  }

  /** One player count of `simulate`: the range check, the trials, then the
      division by the trial count. */
  method RunPlayerCount(n: int, trials: int, decks: seq<seq<Card>>) returns (r: Result<seq<Row>>)
    requires |decks| == DealCount(trials)
    requires forall t :: 0 <= t < |decks| ==> |decks[t]| == 52 && IsShuffledDeck(decks[t])
    ensures r == PlayerCountRows(n, trials, decks)
    ensures r.Err? <==> !(MIN_PLAYERS <= n <= MAX_PLAYERS) || trials == 0
    ensures r.Ok? ==> |r.value| == |HAND_TYPES|
  {
    if n < MIN_PLAYERS || n > MAX_PLAYERS {
      return Err(ValueError("num_players must be between 2 and 9 for this sim"));
    }
    var c := PlayTrials(n, decks);
    if trials == 0 {
      return Err(ZeroDivisionError);
    }
    r := Ok(Rows(n, c, trials));
  }

  /** A negative trial count runs no deal and raises nothing: every row of
      the player count holds zero probabilities. */
  lemma NegativeTrials(n: int, trials: int, decks: seq<seq<Card>>)
    requires MIN_PLAYERS <= n <= MAX_PLAYERS && trials < 0 && |decks| == DealCount(trials)
    ensures var r := PlayerCountRows(n, trials, decks);
      && r.Ok? && |r.value| == |HAND_TYPES|
      && forall i :: 0 <= i < |HAND_TYPES| ==> r.value[i] == Row(n, HAND_TYPES[i], 0.0, 0.0, 0.0, 0.0)
  {
    assert Outcomes(decks, n) == [];
    var c := Accumulate(Outcomes(decks, n));
    assert c == Counters(map[], map[], map[], 0.0);
    forall i | 0 <= i < |HAND_TYPES|
      ensures Rows(n, c, trials)[i] == Row(n, HAND_TYPES[i], 0.0, 0.0, 0.0, 0.0)
    {
      RowsAt(n, c, trials as real, HAND_TYPES, i);
    }
  }

  /** Every player count has one shuffled deck per deal. */
  ghost predicate AllShuffled(trials: int, decks: seq<seq<seq<Card>>>) {
    forall j :: 0 <= j < |decks| ==>
      && |decks[j]| == DealCount(trials)
      && forall t :: 0 <= t < |decks[j]| ==> |decks[j][t]| == 52 && IsShuffledDeck(decks[j][t])
  }

  /** The outcome of each player count on its own. */
  ghost function Steps(counts: seq<int>, trials: int, decks: seq<seq<seq<Card>>>): (r: seq<Result<seq<Row>>>)
    requires |decks| == |counts| && AllShuffled(trials, decks)
    ensures |r| == |counts|
  {
    seq(|counts|, j requires 0 <= j < |counts| => PlayerCountRows(counts[j], trials, decks[j]))
  }

  /** The rows of the steps in order, stopping at the first that raises. */
  function Chain(steps: seq<Result<seq<Row>>>): Result<seq<Row>>
    decreases |steps|
  {
    if steps == [] then Ok([])
    else
      var prev := Chain(steps[..|steps| - 1]);
      var last := steps[|steps| - 1];
      if prev.Err? then prev
      else if last.Err? then last
      else Ok(prev.value + last.value)
  }

  /** `simulate` over a list of player counts, `decks[j]` supplying the
      shuffled decks of the trials for `counts[j]`. */
  method Simulate(counts: seq<int>, trials: int, decks: seq<seq<seq<Card>>>) returns (r: Result<seq<Row>>)
    requires |decks| == |counts| && AllShuffled(trials, decks)
    ensures r == Chain(Steps(counts, trials, decks))
  {
    ghost var steps := Steps(counts, trials, decks);
    var rows: seq<Row> := [];
    for j := 0 to |counts|
      invariant Chain(steps[..j]) == Ok(rows)
    {
      assert steps[..j + 1][..j] == steps[..j];
      var step := RunPlayerCount(counts[j], trials, decks[j]);
      if step.Err? {
        ChainStops(steps, j);
        return step;
      }
      rows := rows + step.value;
    }
    assert steps[..|counts|] == steps;
    r := Ok(rows);
  }

  /** Once a step raises, the later ones are never run and the error is the
      run's outcome. */
  lemma {:induction false} ChainStops(steps: seq<Result<seq<Row>>>, j: nat)
    requires j < |steps| && Chain(steps[..j]).Ok? && steps[j].Err?
    ensures Chain(steps) == steps[j]
    decreases |steps|
  {
    assert steps[..j + 1][..j] == steps[..j];
    var k := |steps| - 1;
    if j < k {
      assert steps[..k][..j] == steps[..j];
      ChainStops(steps[..k], j);
    }
  }

  /** The chain succeeds exactly when every step does; it then holds each
      step's rows, ten per step, in order. */
  lemma {:induction false} ChainSpec(steps: seq<Result<seq<Row>>>)
    requires forall j :: 0 <= j < |steps| && steps[j].Ok? ==> |steps[j].value| == 10
    ensures Chain(steps).Ok? <==> forall j :: 0 <= j < |steps| ==> steps[j].Ok?
    ensures Chain(steps).Ok? ==>
      && |Chain(steps).value| == 10 * |steps|
      && forall j :: 0 <= j < |steps| ==> Chain(steps).value[10 * j..10 * j + 10] == steps[j].value
    decreases |steps|
  {
    if steps != [] {
      var k := |steps| - 1;
      var prev := Chain(steps[..k]);
      var last := steps[k];
      ChainSpec(steps[..k]);
      if prev.Ok? && last.Ok? {
        var rows := prev.value + last.value;
        forall j | 0 <= j < |steps| ensures rows[10 * j..10 * j + 10] == steps[j].value {
          if j < k {
            assert steps[..k][j] == steps[j];
            assert rows[10 * j..10 * j + 10] == prev.value[10 * j..10 * j + 10];
          } else {
            assert rows[10 * j..10 * j + 10] == last.value;
          }
        }
      } else if prev.Err? {
        var j :| 0 <= j < k && steps[..k][j].Err?;
        assert steps[..k][j] == steps[j];
      }
    }
  }

  /** The run succeeds exactly when every player count lies in 2..9 and the
      trial count is not zero; it then holds one block of rows per count, in
      order, each the rows of that count's deals. */
  lemma {:induction false} SimulateSpec(counts: seq<int>, trials: int, decks: seq<seq<seq<Card>>>)
    requires |decks| == |counts| && AllShuffled(trials, decks)
    ensures var r := Chain(Steps(counts, trials, decks));
      && (r.Ok? <==> forall j :: 0 <= j < |counts| ==> MIN_PLAYERS <= counts[j] <= MAX_PLAYERS && trials != 0)
      && (r.Ok? ==>
            && |r.value| == 10 * |counts|
            && forall j :: 0 <= j < |counts| ==>
                 r.value[10 * j..10 * j + 10] == Rows(counts[j], Accumulate(Outcomes(decks[j], counts[j])), trials))
  {
    var steps := Steps(counts, trials, decks);
    forall j | 0 <= j < |steps|
      ensures steps[j].Ok? <==> MIN_PLAYERS <= counts[j] <= MAX_PLAYERS && trials != 0
      ensures steps[j].Ok? ==> steps[j].value == Rows(counts[j], Accumulate(Outcomes(decks[j], counts[j])), trials)
      ensures steps[j].Ok? ==> |steps[j].value| == 10
    {
      assert steps[j] == PlayerCountRows(counts[j], trials, decks[j]);
    }
    ChainSpec(steps);
  }

  /** When a player count raises, the run's outcome is the first such
      count's error: the range error, or the division by a zero trial count. */
  lemma {:induction false} SimulateFirstError(counts: seq<int>, trials: int, decks: seq<seq<seq<Card>>>, j: int)
    requires |decks| == |counts| && AllShuffled(trials, decks) && 0 <= j < |counts|
    requires forall i :: 0 <= i < j ==> MIN_PLAYERS <= counts[i] <= MAX_PLAYERS && trials != 0
    requires !(MIN_PLAYERS <= counts[j] <= MAX_PLAYERS && trials != 0)
    ensures !(MIN_PLAYERS <= counts[j] <= MAX_PLAYERS) ==>
      Chain(Steps(counts, trials, decks)) == Err(ValueError("num_players must be between 2 and 9 for this sim"))
    ensures MIN_PLAYERS <= counts[j] <= MAX_PLAYERS ==> Chain(Steps(counts, trials, decks)) == Err(ZeroDivisionError)
  {
    var steps := Steps(counts, trials, decks);
    forall i | 0 <= i < |steps[..j]| && steps[..j][i].Ok? ensures |steps[..j][i].value| == 10 {
    }
    ChainSpec(steps[..j]);
    ChainStops(steps, j);
  }
}
