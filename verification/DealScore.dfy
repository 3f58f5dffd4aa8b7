/**
 * The deal score and the buy/wait verdict.
 *
 * Both read the daily minimum prices of the window, their statistics and the
 * current price. A signal that cannot be measured is left out and its weight
 * goes to the others.
 */
module DealScore {
  import opened Options
  import opened OrderStatistics

  datatype Stats = Stats(average: real, median: real, volatility: real, dayCount: nat, spanDays: int)

  datatype Input = Input(
    price: Option<real>,
    mins: seq<real>,
    stats: Option<Stats>,
    competitors: seq<real>,
    inStock: Option<bool>,
    storeCount: nat
  )

  datatype Signal = Signal(weight: real, score: Option<real>)

  datatype Grade = Poor | Fair | Good | Excellent

  datatype Result = Result(score: Option<int>, grade: Option<Grade>, coverage: real, signals: seq<Signal>)

  const MIN_SIGNAL_COVERAGE := 0.5

  const HISTORICAL_POSITION := 35.0
  const MARKET_POSITION := 25.0
  const DISCOUNT_DEPTH := 15.0
  const AVAILABILITY := 10.0
  const STORE_COVERAGE := 10.0
  const PRICE_STABILITY := 5.0

  function Clamp(value: real): real {
    if value < 0.0 then 0.0 else if value > 100.0 then 100.0 else value
  }

  /** Rounding to the nearest integer, halves up. */
  function Round(value: real): int {
    (value + 0.5).Floor
  }

  function RankOrNeutral(values: seq<real>, price: real): real {
    var rank := PercentileRank(values, price);
    if rank.Some? then rank.value else 50.0
  }

  // ----- the six signals

  function HistoricalPosition(input: Input): Signal {
    if input.price.Some? && input.stats.Some? && |input.mins| >= 5 then
      Signal(HISTORICAL_POSITION, Some(Clamp(100.0 - RankOrNeutral(input.mins, input.price.value))))
    else Signal(HISTORICAL_POSITION, None)
  }

  function MarketPosition(input: Input): Signal {
    if input.price.Some? && |input.competitors| >= 2 then
      var others := Sort(input.competitors);
      var cheapest, dearest := others[0], others[|others| - 1];
      var spread := dearest - cheapest;
      Signal(MARKET_POSITION, Some(if spread > 0.0 then Clamp((dearest - input.price.value) / spread * 100.0) else 50.0))
    else Signal(MARKET_POSITION, None)
  }

  function DiscountDepth(input: Input): Signal {
    if input.price.Some? && input.stats.Some? && input.stats.value.median > 0.0 && |input.mins| >= 5 then
      var median := input.stats.value.median;
      var dropPct := (median - input.price.value) / median * 100.0;
      Signal(DISCOUNT_DEPTH, Some(Clamp(dropPct / 30.0 * 100.0)))
    else Signal(DISCOUNT_DEPTH, None)
  }

  function Availability(input: Input): Signal {
    Signal(AVAILABILITY, match input.inStock case None => None case Some(yes) => Some(if yes then 100.0 else 0.0))
  }

  function StoreCoverage(input: Input): Signal {
    Signal(STORE_COVERAGE, Some(Clamp((if input.storeCount < 6 then input.storeCount else 6) as real / 6.0 * 100.0)))
  }

  function PriceStability(input: Input): Signal {
    if input.stats.Some? && |input.mins| >= 10 then
      Signal(PRICE_STABILITY, Some(Clamp(100.0 - input.stats.value.volatility / 0.3 * 100.0)))
    else Signal(PRICE_STABILITY, None)
  }

  // ----- what the signals mean

  /** A value cut off at 0 and at 100. */
  lemma ClampMeaning(value: real)
    ensures value <= 0.0 ==> Clamp(value) == 0.0
    ensures 0.0 <= value <= 100.0 ==> Clamp(value) == value
    ensures value >= 100.0 ==> Clamp(value) == 100.0
  {
  }

  /** The percentage of the recorded minimum prices that the price undercuts, equal ones counting half. */
  lemma HistoryMeaning(input: Input)
    ensures var signal := HistoricalPosition(input);
            && (signal.score.Some? <==> input.price.Some? && input.stats.Some? && |input.mins| >= 5)
            && (signal.score.Some? ==>
                  signal.score.value * |input.mins| as real
                  == 100.0 * Count(input.mins, v => v > input.price.value) as real + 50.0 * Count(input.mins, v => v == input.price.value) as real)
  {
    var signal := HistoricalPosition(input);
    if signal.score.Some? {
      var n, below := |input.mins|, Count(input.mins, v => v < input.price.value);
      var equal := Count(input.mins, v => v == input.price.value);
      hide Rank;
      CountSides(input.mins, input.price.value);
      RankMonotone(input.mins, input.price.value, input.price.value);
      RankScaled(below, equal, n);
      assert PercentileRank(input.mins, input.price.value) == Some(Rank(below, equal, n));
      assert signal.score.value == 100.0 - Rank(below, equal, n);
      assert signal.score.value * n as real == 100.0 * n as real - Rank(below, equal, n) * n as real;
    }
  }

  /** Where the price lies between the cheapest and the dearest other store, from 100 to 0. */
  lemma MarketMeaning(input: Input, cheapest: real, dearest: real)
    requires cheapest in input.competitors && dearest in input.competitors
    requires forall price <- input.competitors :: cheapest <= price <= dearest
    ensures var signal := MarketPosition(input);
            && (signal.score.Some? <==> input.price.Some? && |input.competitors| >= 2)
            && (signal.score.Some? ==>
                  var price, score := input.price.value, signal.score.value;
                  if cheapest == dearest then score == 50.0
                  else if price <= cheapest then score == 100.0
                  else if price >= dearest then score == 0.0
                  else Times(score, dearest - cheapest) == 100.0 * (dearest - price))
  {
    SortEnds(input.competitors, cheapest, dearest);
    hide Sort;
    if input.price.Some? && |input.competitors| >= 2 && cheapest < dearest {
      Percent(dearest - input.price.value, dearest - cheapest);
    }
  }

  /** How far the price is under the typical one, full marks at 30 percent. */
  lemma DiscountMeaning(input: Input)
    ensures var signal := DiscountDepth(input);
            && (signal.score.Some? <==> input.price.Some? && input.stats.Some? && input.stats.value.median > 0.0 && |input.mins| >= 5)
            && (signal.score.Some? ==>
                  var price, typical, score := input.price.value, input.stats.value.median, signal.score.value;
                  if price >= typical then score == 0.0
                  else if price <= 0.7 * typical then score == 100.0
                  else Times(score, typical) * 0.3 == 100.0 * (typical - price))
  {
    if DiscountDepth(input).score.Some? { DropMeaning(input.price.value, input.stats.value.median); }
  }

  lemma DropMeaning(price: real, typical: real)
    requires typical > 0.0
    ensures var score := Clamp((typical - price) / typical * 100.0 / 30.0 * 100.0);
            if price >= typical then score == 0.0
            else if price <= 0.7 * typical then score == 100.0
            else Times(score, typical) * 0.3 == 100.0 * (typical - price)
  {
    var drop := (typical - price) / typical;
    assert drop * typical == typical - price;
    DropBounds(drop, typical, price);
    if price < typical && price > 0.7 * typical {
      var score := drop * 100.0 / 30.0 * 100.0;
      assert Clamp(score) == score && score * 0.3 == drop * 100.0;
      ScaledBack(score, drop, typical);
    }
  }

  lemma DropBounds(drop: real, typical: real, price: real)
    requires typical > 0.0 && drop * typical == typical - price
    ensures price >= typical ==> drop <= 0.0
    ensures price < typical ==> drop > 0.0
    ensures price <= 0.7 * typical <==> drop >= 0.3
  {
    assert (drop - 0.3) * typical == 0.7 * typical - price;
  }

  lemma ScaledBack(score: real, drop: real, typical: real)
    requires score * 0.3 == drop * 100.0
    ensures Times(score, typical) * 0.3 == 100.0 * (drop * typical)
  {
    assert (score * typical) * 0.3 == (score * 0.3) * typical;
  }

  /** Known stock counts all or nothing, six stores are full coverage, and volatility counts against stability up to 0.3. */
  lemma OtherSignalsMeaning(input: Input)
    ensures Availability(input).score == match input.inStock case None => None case Some(true) => Some(100.0) case Some(false) => Some(0.0)
    ensures var coverage := StoreCoverage(input).score;
            coverage.Some? && if input.storeCount >= 6 then coverage.value == 100.0
                              else coverage.value * 6.0 == 100.0 * input.storeCount as real
    ensures var stability := PriceStability(input).score;
            && (stability.Some? <==> input.stats.Some? && |input.mins| >= 10)
            && (stability.Some? ==>
                  var volatility := input.stats.value.volatility;
                  if volatility <= 0.0 then stability.value == 100.0
                  else if volatility >= 0.3 then stability.value == 0.0
                  else stability.value * 0.3 == 100.0 * (0.3 - volatility))
  {
  }

  lemma Percent(part: real, whole: real)
    requires whole > 0.0
    ensures part <= 0.0 ==> Clamp(part / whole * 100.0) == 0.0
    ensures part >= whole ==> Clamp(part / whole * 100.0) == 100.0
    ensures 0.0 <= part <= whole ==> Times(Clamp(part / whole * 100.0), whole) == 100.0 * part
  {
    var q := part / whole;
    assert q * whole == part;
    assert part <= 0.0 ==> q <= 0.0;
    assert part >= whole ==> q >= 1.0;
    assert 0.0 <= part <= whole ==> 0.0 <= q <= 1.0;
    if 0.0 <= part <= whole {
      assert Clamp(q * 100.0) == q * 100.0;
      assert (q * 100.0) * whole == 100.0 * (q * whole);
    }
  }

  // ----- the weighted score

  function TotalWeight(signals: seq<Signal>): real {
    if signals == [] then 0.0 else TotalWeight(Init(signals)) + signals[|signals| - 1].weight
  }

  function Resolved(signal: Signal): real {
    if signal.score.Some? then signal.weight else 0.0
  }

  function Share(signal: Signal): real {
    if signal.score.Some? then signal.score.value * signal.weight else 0.0
  }

  function ResolvedWeight(signals: seq<Signal>): real {
    if signals == [] then 0.0 else ResolvedWeight(Init(signals)) + Resolved(signals[|signals| - 1])
  }

  function WeightedSum(signals: seq<Signal>): real {
    if signals == [] then 0.0 else WeightedSum(Init(signals)) + Share(signals[|signals| - 1])
  }

  function GradeOf(score: int): Grade {
    if score >= 80 then Excellent else if score >= 60 then Good else if score >= 40 then Fair else Poor
  }

  method ComputeDealScore(input: Input) returns (result: Result)
    ensures result.signals == Signals(input)
    ensures result.score == Score(input)
    ensures result.score.Some? ==> 0 <= result.score.value <= 100
    ensures result.grade.Some? <==> result.score.Some?
    ensures result.score.Some? ==>
              && (result.grade.value == Excellent <==> 80 <= result.score.value)
              && (result.grade.value == Good <==> 60 <= result.score.value < 80)
              && (result.grade.value == Fair <==> 40 <= result.score.value < 60)
    ensures 0.0 < result.coverage <= 1.0 && result.coverage * 100.0 == ResolvedWeight(result.signals)
    ensures result.score.Some? <==> result.coverage >= 0.5
  {
    var signals := [];
    signals := signals + [HistoricalPosition(input)];
    signals := signals + [MarketPosition(input)];
    signals := signals + [DiscountDepth(input)];
    signals := signals + [Availability(input)];
    signals := signals + [StoreCoverage(input)];
    signals := signals + [PriceStability(input)];
    assert signals == Signals(input);
    Weights(input);

    var totalWeight, resolvedWeight := TotalWeight(signals), ResolvedWeight(signals);
    var coverage := if totalWeight > 0.0 then resolvedWeight / totalWeight else 0.0;
    if coverage < MIN_SIGNAL_COVERAGE || resolvedWeight == 0.0 {
      return Result(None, None, coverage, signals);
    }
    ScoreBounds(input);
    var score := Round(WeightedSum(signals) / resolvedWeight);
    result := Result(Some(score), Some(GradeOf(score)), coverage, signals);
  }

  function Signals(input: Input): seq<Signal> {
    [HistoricalPosition(input), MarketPosition(input), DiscountDepth(input),
     Availability(input), StoreCoverage(input), PriceStability(input)]
  }

  /** The weighted mean of the resolved signals, published when they carry half of the weight. */
  function Score(input: Input): Option<int> {
    var signals := Signals(input);
    if ResolvedWeight(signals) < 50.0 then None
    else Some(Round(WeightedSum(signals) / ResolvedWeight(signals)))
  }

  /** A signal's score, or nothing. */
  ghost function Points(signal: Signal): real {
    if signal.score.Some? then signal.score.value else 0.0
  }

  ghost function Measured(signal: Signal, weight: real): real {
    if signal.score.Some? then weight else 0.0
  }

  /** The score, to the nearest point, of weights 35, 25, 15, 10, 10 and 5, of which at least 50 must have been measured. */
  lemma ScoreMeaning(input: Input)
    ensures var s := Signals(input);
            var measured := Measured(s[0], 35.0) + Measured(s[1], 25.0) + Measured(s[2], 15.0) + Measured(s[3], 10.0)
                            + Measured(s[4], 10.0) + Measured(s[5], 5.0);
            var points := 35.0 * Points(s[0]) + 25.0 * Points(s[1]) + 15.0 * Points(s[2]) + 10.0 * Points(s[3])
                          + 10.0 * Points(s[4]) + 5.0 * Points(s[5]);
            && ResolvedWeight(s) == measured
            && (Score(input).Some? <==> measured >= 50.0)
            && (Score(input).Some? ==>
                  Times(Score(input).value as real - 0.5, measured) <= points < Times(Score(input).value as real + 0.5, measured))
  {
    hide Signals;
    hide WeightedSum;
    hide ResolvedWeight;
    hide Round;
    SixWeights(input);
    var s := Signals(input);
    if ResolvedWeight(s) >= 50.0 { RoundedMean(WeightedSum(s), ResolvedWeight(s)); }
  }

  lemma SixWeights(input: Input)
    ensures var s := Signals(input);
            && |s| == 6
            && ResolvedWeight(s) == Measured(s[0], 35.0) + Measured(s[1], 25.0) + Measured(s[2], 15.0) + Measured(s[3], 10.0)
                                    + Measured(s[4], 10.0) + Measured(s[5], 5.0)
            && WeightedSum(s) == 35.0 * Points(s[0]) + 25.0 * Points(s[1]) + 15.0 * Points(s[2]) + 10.0 * Points(s[3])
                                 + 10.0 * Points(s[4]) + 5.0 * Points(s[5])
  {
    SumOfSix(Signals(input));
    hide WeightedSum;
    hide ResolvedWeight;
    hide Clamp;
    hide PercentileRank;
    hide Sort;
  }

  lemma RoundedMean(sum: real, weight: real)
    requires weight > 0.0
    ensures Times(Round(sum / weight) as real - 0.5, weight) <= sum < Times(Round(sum / weight) as real + 0.5, weight)
  {
    var q := sum / weight;
    assert Times(q, weight) == sum;
    RoundBetween(q);
    hide Times;
    hide Round;
    TimesOrder(Round(q) as real - 0.5, q, weight);
    TimesOrder(q, Round(q) as real + 0.5, weight);
  }

  lemma RoundBetween(value: real)
    ensures Round(value) as real - 0.5 <= value < Round(value) as real + 0.5
  {
  }

  lemma TimesOrder(x: real, y: real, w: real)
    requires w > 0.0
    ensures x <= y ==> Times(x, w) <= Times(y, w)
    ensures x < y ==> Times(x, w) < Times(y, w)
  {
    assert x < y ==> (y - x) * w > 0.0;
  }

  lemma SumOfSix(s: seq<Signal>)
    requires |s| == 6
    ensures WeightedSum(s) == Share(s[0]) + Share(s[1]) + Share(s[2]) + Share(s[3]) + Share(s[4]) + Share(s[5])
    ensures ResolvedWeight(s) == Resolved(s[0]) + Resolved(s[1]) + Resolved(s[2]) + Resolved(s[3]) + Resolved(s[4]) + Resolved(s[5])
  {
    hide Share;
    hide Resolved;
    OneMoreSignal(s, 0);
    OneMoreSignal(s, 1);
    OneMoreSignal(s, 2);
    OneMoreSignal(s, 3);
    OneMoreSignal(s, 4);
    OneMoreSignal(s, 5);
    assert s[..6] == s;
  }

  lemma OneMoreSignal(s: seq<Signal>, n: nat)
    requires n < |s|
    ensures TotalWeight(s[..n + 1]) == TotalWeight(s[..n]) + s[n].weight
    ensures ResolvedWeight(s[..n + 1]) == ResolvedWeight(s[..n]) + Resolved(s[n])
    ensures WeightedSum(s[..n + 1]) == WeightedSum(s[..n]) + Share(s[n])
  {
    hide Share;
    hide Resolved;
    assert Init(s[..n + 1]) == s[..n];
  }

  lemma Weights(input: Input)
    ensures TotalWeight(Signals(input)) == 100.0
    ensures ResolvedWeight(Signals(input))
            == Resolved(HistoricalPosition(input)) + Resolved(MarketPosition(input)) + Resolved(DiscountDepth(input))
               + Resolved(Availability(input)) + STORE_COVERAGE + Resolved(PriceStability(input))
  {
    var s := Signals(input);
    OneMoreSignal(s, 0);
    OneMoreSignal(s, 1);
    OneMoreSignal(s, 2);
    OneMoreSignal(s, 3);
    OneMoreSignal(s, 4);
    OneMoreSignal(s, 5);
    assert s[..6] == s;
  }

  /** Without price history there is no score; with it, and a positive typical price, there always is. */
  lemma PublishedExactlyWithHistory(input: Input)
    requires input.stats.Some? ==> input.stats.value.median > 0.0
    ensures Score(input).Some? <==> input.price.Some? && input.stats.Some? && |input.mins| >= 5
  {
    Weights(input);
  }

  // ----- bounds

  ghost predicate Within(signals: seq<Signal>, low: real, high: real) {
    forall i | 0 <= i < |signals| ::
      signals[i].weight > 0.0 && (signals[i].score.Some? ==> low <= signals[i].score.value <= high)
  }

  lemma {:induction false} WeightedSumBounds(signals: seq<Signal>, low: real, high: real)
    requires Within(signals, low, high)
    ensures Times(low, ResolvedWeight(signals)) <= WeightedSum(signals) <= Times(high, ResolvedWeight(signals))
  {
    if signals != [] {
      var last := signals[|signals| - 1];
      WeightedSumBounds(Init(signals), low, high);
      ShareBounds(last, low, high);
      Distribute(low, ResolvedWeight(Init(signals)), Resolved(last));
      Distribute(high, ResolvedWeight(Init(signals)), Resolved(last));
    }
  }

  function Times(x: real, w: real): real {
    x * w
  }

  lemma Distribute(x: real, v: real, w: real)
    ensures Times(x, v + w) == Times(x, v) + Times(x, w)
  {
  }

  lemma ShareBounds(signal: Signal, low: real, high: real)
    requires signal.weight >= 0.0 && (signal.score.Some? ==> low <= signal.score.value <= high)
    ensures Times(low, Resolved(signal)) <= Share(signal) <= Times(high, Resolved(signal))
  {
    if signal.score.Some? {
      Scale(low, signal.score.value, signal.weight);
      Scale(signal.score.value, high, signal.weight);
    }
  }

  lemma Scale(x: real, y: real, w: real)
    requires x <= y && w >= 0.0
    ensures x * w <= y * w
  {
  }

  lemma Quotient(sum: real, bound: real, w: real)
    requires w > 0.0
    ensures Times(bound, w) <= sum ==> bound <= sum / w
    ensures sum <= Times(bound, w) ==> sum / w <= bound
  {
    var q := sum / w;
    assert q * w == sum;
    assert (bound - q) * w == bound * w - sum;
  }

  /** Every signal is a score out of 100. */
  lemma SignalsWithin(input: Input)
    ensures Within(Signals(input), 0.0, 100.0)
  {
  }

  /** The score lies between any bounds of the resolved signals, up to rounding. */
  lemma ScoreBetweenSignals(input: Input, low: real, high: real)
    requires Score(input).Some? && Within(Signals(input), low, high)
    ensures Round(low) <= Score(input).value <= Round(high)
  {
    var signals := Signals(input);
    WeightedSumBounds(signals, low, high);
    Quotient(WeightedSum(signals), low, ResolvedWeight(signals));
    Quotient(WeightedSum(signals), high, ResolvedWeight(signals));
  }

  lemma ScoreBounds(input: Input)
    ensures Score(input).Some? ==> 0 <= Score(input).value <= 100
  {
    SignalsWithin(input);
    if Score(input).Some? { ScoreBetweenSignals(input, 0.0, 100.0); }
  }

  // ----- a lower price is never a worse deal

  /** Signal by signal: resolved alike, with the same weight, and scored no lower. */
  ghost predicate NoWorseSignal(better: Signal, worse: Signal) {
    && better.weight == worse.weight >= 0.0
    && (better.score.Some? <==> worse.score.Some?)
    && (better.score.Some? ==> worse.score.value <= better.score.value)
  }

  ghost predicate NoWorse(better: seq<Signal>, worse: seq<Signal>) {
    |better| == |worse| && forall i | 0 <= i < |better| :: NoWorseSignal(better[i], worse[i])
  }

  lemma ShareMonotone(better: Signal, worse: Signal)
    requires NoWorseSignal(better, worse)
    ensures Share(worse) <= Share(better) && Resolved(worse) == Resolved(better)
  {
    if better.score.Some? { Scale(worse.score.value, better.score.value, better.weight); }
  }

  lemma {:induction false} WeightedSumMonotone(better: seq<Signal>, worse: seq<Signal>)
    requires NoWorse(better, worse)
    ensures WeightedSum(worse) <= WeightedSum(better) && ResolvedWeight(worse) == ResolvedWeight(better)
  {
    hide Share;
    if better != [] {
      WeightedSumMonotone(Init(better), Init(worse));
      var b, w := better[|better| - 1], worse[|worse| - 1];
      ShareMonotone(b, w);
    }
  }

  lemma SignalsMonotone(input: Input, low: real, high: real)
    requires low <= high
    ensures NoWorse(Signals(input.(price := Some(low))), Signals(input.(price := Some(high))))
  {
    hide HistoricalPosition;
    hide MarketPosition;
    hide DiscountDepth;
    HistoryMonotone(input, low, high);
    MarketMonotone(input, low, high);
    DiscountMonotone(input, low, high);
    var cheap, dear := input.(price := Some(low)), input.(price := Some(high));
    assert NoWorseSignal(Availability(cheap), Availability(dear));
    assert NoWorseSignal(StoreCoverage(cheap), StoreCoverage(dear));
    assert NoWorseSignal(PriceStability(cheap), PriceStability(dear));
  }

  lemma HistoryMonotone(input: Input, low: real, high: real)
    requires low <= high
    ensures NoWorseSignal(HistoricalPosition(input.(price := Some(low))), HistoricalPosition(input.(price := Some(high))))
  {
    hide Rank;
    if |input.mins| >= 5 { RankMonotone(input.mins, low, high); }
  }

  lemma MarketMonotone(input: Input, low: real, high: real)
    requires low <= high
    ensures NoWorseSignal(MarketPosition(input.(price := Some(low))), MarketPosition(input.(price := Some(high))))
  {
    hide Sort;
    if |input.competitors| >= 2 {
      var others := Sort(input.competitors);
      var dearest, spread := others[|others| - 1], others[|others| - 1] - others[0];
      if spread > 0.0 { DivideOrder(dearest - high, dearest - low, spread); }
    }
  }

  lemma DivideOrder(x: real, y: real, n: real)
    requires x <= y && n > 0.0
    ensures x / n <= y / n
  {
    Quotient(y, x / n, n);
    assert x / n * n == x;
  }

  lemma DiscountMonotone(input: Input, low: real, high: real)
    requires low <= high
    ensures NoWorseSignal(DiscountDepth(input.(price := Some(low))), DiscountDepth(input.(price := Some(high))))
  {
    if input.stats.Some? && input.stats.value.median > 0.0 {
      var median := input.stats.value.median;
      DivideOrder(median - high, median - low, median);
    }
  }

  /** All else equal, a lower price is scored when the higher one is, and never scores or grades lower. */
  lemma LowerPriceNeverScoresLower(input: Input, low: real, high: real)
    requires low <= high
    ensures var cheap, dear := Score(input.(price := Some(low))), Score(input.(price := Some(high)));
            && (cheap.Some? <==> dear.Some?)
            && (cheap.Some? ==> dear.value <= cheap.value)
            && (cheap.Some? ==>
                  && (GradeOf(dear.value) == Excellent ==> GradeOf(cheap.value) == Excellent)
                  && (GradeOf(dear.value) == Good ==> GradeOf(cheap.value) == Good || GradeOf(cheap.value) == Excellent)
                  && (GradeOf(cheap.value) == Poor ==> GradeOf(dear.value) == Poor))
  {
    hide Signals;
    var cheap, dear := Signals(input.(price := Some(low))), Signals(input.(price := Some(high)));
    SignalsMonotone(input, low, high);
    WeightedSumMonotone(cheap, dear);
    if ResolvedWeight(cheap) >= 50.0 {
      DivideOrder(WeightedSum(dear), WeightedSum(cheap), ResolvedWeight(cheap));
    }
  }

  // ----- the verdict

  datatype Verdict = GoodTimeToBuy | FairPrice | Wait | InsufficientData

  const MIN_DAYS_FOR_VERDICT := 10
  const MIN_SPAN_DAYS_FOR_VERDICT := 14
  const SALE_WAIT_DAYS := 14

  /** `saleIn` is how many days away the nearest known sale is; 0 while it is on. */
  function BuyVerdict(price: Option<real>, mins: seq<real>, stats: Option<Stats>, saleIn: Option<nat>): Verdict {
    if price.None? || stats.None? || |mins| == 0 then InsufficientData
    else if stats.value.dayCount < MIN_DAYS_FOR_VERDICT || stats.value.spanDays < MIN_SPAN_DAYS_FOR_VERDICT then InsufficientData
    else
      var rank := RankOrNeutral(mins, price.value);
      if rank <= 25.0 then GoodTimeToBuy
      else if rank >= 70.0 then Wait
      else if saleIn.Some? && 0 < saleIn.value <= SALE_WAIT_DAYS then Wait
      else FairPrice
  }

  /** All else equal, a lower price never gets a worse verdict, and whether there is one does not depend on it. */
  lemma LowerPriceNeverWorsensVerdict(mins: seq<real>, stats: Option<Stats>, saleIn: Option<nat>, low: real, high: real)
    requires low <= high
    ensures var cheap, dear := BuyVerdict(Some(low), mins, stats, saleIn), BuyVerdict(Some(high), mins, stats, saleIn);
            && (cheap == InsufficientData <==> dear == InsufficientData)
            && (dear == GoodTimeToBuy ==> cheap == GoodTimeToBuy)
            && (cheap == Wait ==> dear == Wait)
  {
    hide Rank;
    if mins != [] { RankMonotone(mins, low, high); }
  }

  /**
   * There is a verdict exactly on enough data. It is to buy when at most a
   * quarter of the recorded prices are lower (equal ones counting half), to wait
   * when at least seven tenths are or a sale is one to fourteen days away, and
   * otherwise that the price is fair.
   */
  lemma VerdictExactly(price: Option<real>, mins: seq<real>, stats: Option<Stats>, saleIn: Option<nat>)
    ensures var verdict := BuyVerdict(price, mins, stats, saleIn);
            && (verdict == InsufficientData
                <==> price.None? || stats.None? || mins == [] || stats.value.dayCount < 10 || stats.value.spanDays < 14)
            && (verdict != InsufficientData ==>
                  var n, below, equal := |mins|, Count(mins, v => v < price.value), Count(mins, v => v == price.value);
                  && (verdict == GoodTimeToBuy <==> 4 * below + 2 * equal <= n)
                  && (verdict == Wait
                      <==> 4 * below + 2 * equal > n
                           && (10 * below + 5 * equal >= 7 * n || (saleIn.Some? && 1 <= saleIn.value <= 14))))
  {
    if price.Some? && mins != [] {
      var n, below, equal := |mins|, Count(mins, v => v < price.value), Count(mins, v => v == price.value);
      hide Rank;
      RankScaled(below, equal, n);
      RankAgainst(below, equal, n, 25.0);
      RankAgainst(below, equal, n, 70.0);
      assert RankOrNeutral(mins, price.value) == Rank(below, equal, n);
    }
  }

  /** At or below every recorded price is a good time to buy; above them all is a time to wait. */
  lemma ExtremePrices(price: real, mins: seq<real>, stats: Option<Stats>, saleIn: Option<nat>)
    requires BuyVerdict(Some(price), mins, stats, saleIn) != InsufficientData
    ensures (forall i | 0 <= i < |mins| :: price < mins[i]) ==> BuyVerdict(Some(price), mins, stats, saleIn) == GoodTimeToBuy
    ensures (forall i | 0 <= i < |mins| :: price > mins[i]) ==> BuyVerdict(Some(price), mins, stats, saleIn) == Wait
  {
    hide Rank;
    RankEnds(|mins|);
    if forall i | 0 <= i < |mins| :: price < mins[i] {
      CountNone(mins, v => v < price);
      CountNone(mins, v => v == price);
    }
    if forall i | 0 <= i < |mins| :: price > mins[i] {
      CountAll(mins, v => v < price);
      CountNone(mins, v => v == price);
    }
  }
}
