/**
 * The market-price outlier filter: every store counts once, with the median of
 * its own prices, and the market price is the median of those.
 */
module Outliers {
  import opened Options
  import opened OrderStatistics

  /** A JavaScript number: the filter never uses a value that is not finite. */
  datatype Price = NotFinite | Amount(value: real)

  /** Store ids are only compared. */
  type StoreId = nat

  datatype Item = Item(id: nat, price: Price, store: StoreId)

  const MIN_PRICES_FOR_OUTLIER_CHECK := 3

  function Value(item: Item): real {
    if item.price.Amount? then item.price.value else 0.0
  }

  predicate Priced(item: Item) {
    item.price.Amount? && item.price.value > 0.0
  }

  /** Priced between the two bounds. */
  function Inside(lower: real, upper: real): Item -> bool {
    item => Priced(item) && lower <= item.price.value <= upper
  }

  function Outside(lower: real, upper: real): Item -> bool {
    item => !(Priced(item) && lower <= item.price.value <= upper)
  }

  /** A bound of the market band. */
  function Scaled(market: real, ratio: real): real {
    market * ratio
  }

  predicate All(items: seq<Item>, p: Item -> bool) {
    forall i | 0 <= i < |items| :: p(items[i])
  }

  /** The items that satisfy `p`, in order. */
  function Where(items: seq<Item>, p: Item -> bool): (found: seq<Item>)
    ensures All(found, p)
  {
    if items == [] then []
    else
      var last := items[|items| - 1];
      Where(Init(items), p) + if p(last) then [last] else []
  }

  // ----- the market price, declaratively

  /** The stores of the items, in order of first appearance. */
  function Stores(items: seq<Item>): seq<StoreId> {
    if items == [] then []
    else
      var before, store := Stores(Init(items)), items[|items| - 1].store;
      if store in before then before else before + [store]
  }

  function PricesAt(priced: seq<Item>, store: StoreId): seq<real>
  {
    if priced == [] then []
    else
      var last := priced[|priced| - 1];
      PricesAt(Init(priced), store) + if last.store == store then [Value(last)] else []
  }

  function AllPrices(priced: seq<Item>): (prices: seq<real>)
    ensures |prices| == |priced|
  {
    if priced == [] then [] else AllPrices(Init(priced)) + [Value(priced[|priced| - 1])]
  }

  /** One price per store: the median of its own prices. */
  function StorePrice(priced: seq<Item>, store: StoreId): real
  {
    var m := Median(PricesAt(priced, store));
    if m.Some? then m.value else 0.0
  }

  function StorePrices(priced: seq<Item>, stores: seq<StoreId>): (prices: seq<real>)
    ensures |prices| == |stores|
    ensures forall i | 0 <= i < |stores| :: prices[i] == StorePrice(priced, stores[i])
  {
    seq(|stores|, i requires 0 <= i < |stores| => StorePrice(priced, stores[i]))
  }

  /** The market price; none when there is too little to judge by. */
  function Market(items: seq<Item>): Option<real> {
    var priced := Where(items, Priced);
    var stores := Stores(priced);
    if |stores| >= 2 then Median(StorePrices(priced, stores))
    else if |priced| >= MIN_PRICES_FOR_OUTLIER_CHECK then Median(AllPrices(priced))
    else None
  }

  // ----- what the market price is

  predicate HasPrice(item: Item) {
    item.price.Amount? && item.price.value > 0.0
  }

  /** The positive prices that the items of a store state. */
  ghost function PricesOf(items: seq<Item>, store: StoreId): seq<real> {
    if items == [] then []
    else
      var last := items[|items| - 1];
      PricesOf(Init(items), store) + if HasPrice(last) && last.store == store then [last.price.value] else []
  }

  ghost function AllPricesOf(items: seq<Item>): seq<real> {
    if items == [] then []
    else
      var last := items[|items| - 1];
      AllPricesOf(Init(items)) + if HasPrice(last) then [last.price.value] else []
  }

  /** The stores that state a price, each with the median of its prices. */
  ghost predicate StoreMedians(items: seq<Item>, stores: seq<StoreId>, prices: seq<real>) {
    && Distinct(stores) && (forall store :: store in stores <==> PricesOf(items, store) != [])
    && |prices| == |stores| && forall i | 0 <= i < |stores| :: IsMedian(PricesOf(items, stores[i]), prices[i])
  }

  lemma {:induction false} PricesAreOfItems(items: seq<Item>, store: StoreId)
    ensures PricesAt(Where(items, Priced), store) == PricesOf(items, store)
    ensures AllPrices(Where(items, Priced)) == AllPricesOf(items)
  {
    if items != [] {
      PricesAreOfItems(Init(items), store);
      WhereStep(items, Priced);
    }
  }

  /**
   * With two or more stores that state a price, the market price is the median of
   * the stores' medians; with one, the median of its prices, if it has three.
   */
  lemma MarketExactly(items: seq<Item>) returns (stores: seq<StoreId>, prices: seq<real>)
    ensures StoreMedians(items, stores, prices)
    ensures if |stores| >= 2 then Market(items).Some? && IsMedian(prices, Market(items).value)
            else if |AllPricesOf(items)| >= 3 then Market(items).Some? && IsMedian(AllPricesOf(items), Market(items).value)
            else Market(items).None?
  {
    hide Median;
    hide Where;
    hide PricesAt;
    hide PricesOf;
    hide AllPrices;
    hide AllPricesOf;
    hide Stores;
    hide IsMedian;
    var priced := Where(items, Priced);
    stores := Stores(priced);
    prices := StorePrices(priced, stores);
    StoresMeaning(priced);
    forall store ensures PricesAt(priced, store) == PricesOf(items, store) && AllPrices(priced) == AllPricesOf(items) {
      PricesAreOfItems(items, store);
    }
    forall i | 0 <= i < |stores| ensures IsMedian(PricesOf(items, stores[i]), prices[i]) {
      assert stores[i] in stores;
      MedianExactly(PricesAt(priced, stores[i]));
    }
    PricesAreOfItems(items, 0);
    if |stores| >= 2 {
      MedianExactly(prices);
    } else if |priced| >= 3 {
      MedianExactly(AllPrices(priced));
    }
  }

  // ----- the filter

  datatype Filtered = Filtered(kept: seq<Item>, excluded: seq<Item>, median: Option<real>)

  /** A positive price between these multiples of the market price. */
  ghost predicate InBand(item: Item, market: real, lowerRatio: real, upperRatio: real) {
    HasPrice(item) && market * lowerRatio <= item.price.value <= market * upperRatio
  }

  /**
   * What the filter promises: an order-preserving split by the market band, or
   * nothing excluded when there is no market price or nothing lies in the band.
   */
  ghost predicate IsFiltered(items: seq<Item>, lowerRatio: real, upperRatio: real, result: Filtered) {
    var market := Market(items);
    if market.None? then result.kept == items && result.excluded == [] && result.median == Median(AllPrices(Where(items, Priced)))
    else result.median == market && SplitOrKept(items, Scaled(market.value, lowerRatio), Scaled(market.value, upperRatio), result)
  }

  ghost predicate SplitOrKept(items: seq<Item>, lower: real, upper: real, result: Filtered) {
    if |Where(items, Inside(lower, upper))| == 0 then result.kept == items && result.excluded == []
    else result.kept == Where(items, Inside(lower, upper)) && result.excluded == Where(items, Outside(lower, upper))
  }

  method FilterMarketOutliers(items: seq<Item>, lowerRatio: real, upperRatio: real) returns (result: Filtered)
    ensures IsFiltered(items, lowerRatio, upperRatio, result)
    ensures |result.kept| + |result.excluded| == |items|
    ensures items != [] ==> result.kept != []
    ensures result.excluded != [] ==>
              && Market(items).Some?
              && (forall item <- result.kept :: InBand(item, Market(items).value, lowerRatio, upperRatio))
              && (forall item <- result.excluded :: !InBand(item, Market(items).value, lowerRatio, upperRatio))
    ensures result.excluded == [] ==>
              || Market(items).None?
              || (forall item <- items :: InBand(item, Market(items).value, lowerRatio, upperRatio))
              || (forall item <- items :: !InBand(item, Market(items).value, lowerRatio, upperRatio))
  {
    var priced := Where(items, Priced);
    var market := MarketOf(items, priced);
    if market.None? {
      return Filtered(items, [], Median(AllPrices(priced)));
    }
    MarketPositive(items);
    var lower, upper := Scaled(market.value, lowerRatio), Scaled(market.value, upperRatio);
    var kept, excluded := Split(items, lower, upper);
    result := if |kept| == 0 then Filtered(items, [], market) else Filtered(kept, excluded, market);
    assert SplitOrKept(items, lower, upper, result);
    BandSplits(items, market.value, lowerRatio, upperRatio);
  }

  lemma {:induction false} BandSplits(items: seq<Item>, market: real, lowerRatio: real, upperRatio: real)
    ensures var kept := Where(items, Inside(Scaled(market, lowerRatio), Scaled(market, upperRatio)));
            && (forall item <- kept :: InBand(item, market, lowerRatio, upperRatio))
            && (kept == [] ==> forall item <- items :: !InBand(item, market, lowerRatio, upperRatio))
    ensures var excluded := Where(items, Outside(Scaled(market, lowerRatio), Scaled(market, upperRatio)));
            && (forall item <- excluded :: !InBand(item, market, lowerRatio, upperRatio))
            && (excluded == [] ==> forall item <- items :: InBand(item, market, lowerRatio, upperRatio))
  {
    if items != [] {
      BandSplits(Init(items), market, lowerRatio, upperRatio);
      assert items == Init(items) + [items[|items| - 1]];
    }
  }

  /** The market price, from the stores' own medians; none when there is too little data. */
  method MarketOf(items: seq<Item>, priced: seq<Item>) returns (market: Option<real>)
    requires priced == Where(items, Priced)
    ensures market == Market(items)
  {
    hide Median;
    var stores, byStore := GroupByStore(priced);
    if |stores| >= 2 {
      var medians := [];
      for i := 0 to |stores|
        invariant medians == StorePrices(priced, stores[..i])
      {
        var m := Median(byStore[i]);
        medians := medians + [if m.Some? then m.value else 0.0];
      }
      assert stores[..|stores|] == stores;
      market := Median(medians);
    } else if |priced| >= MIN_PRICES_FOR_OUTLIER_CHECK {
      market := Median(AllPrices(priced));
    } else {
      market := None;
    }
  }

  method Split(items: seq<Item>, lower: real, upper: real) returns (kept: seq<Item>, excluded: seq<Item>)
    ensures kept == Where(items, Inside(lower, upper)) && excluded == Where(items, Outside(lower, upper))
    ensures |kept| + |excluded| == |items|
  {
    kept, excluded := [], [];
    for n := 0 to |items|
      invariant kept == Where(items[..n], Inside(lower, upper)) && excluded == Where(items[..n], Outside(lower, upper))
      invariant |kept| + |excluded| == n
    {
      assert Init(items[..n + 1]) == items[..n];
      var item := items[n];
      if !item.price.Amount? || item.price.value <= 0.0 || item.price.value < lower || item.price.value > upper {
        excluded := excluded + [item];
      } else {
        kept := kept + [item];
      }
    }
    assert items[..|items|] == items;
  }

  /** The positive prices of each store, stores in order of first appearance. */
  method GroupByStore(priced: seq<Item>) returns (stores: seq<StoreId>, byStore: seq<seq<real>>)
    ensures stores == Stores(priced) && |byStore| == |stores|
    ensures forall i | 0 <= i < |stores| :: byStore[i] == PricesAt(priced, stores[i])
  {
    hide Stores;
    hide PricesAt;
    stores, byStore := [], [];
    NoItems();
    for n := 0 to |priced|
      invariant stores == Stores(priced[..n]) && |byStore| == |stores|
      invariant forall i | 0 <= i < |stores| :: byStore[i] == PricesAt(priced[..n], stores[i])
    {
      OneMoreItem(priced, n);
      var item := priced[n];
      var at := 0;
      while at < |stores| && stores[at] != item.store
        invariant at <= |stores| && forall k | 0 <= k < at :: stores[k] != item.store
      {
        at := at + 1;
      }
      if at < |stores| {
        byStore := byStore[at := byStore[at] + [Value(item)]];
      } else {
        stores, byStore := stores + [item.store], byStore + [[Value(item)]];
      }
    }
    assert priced[..|priced|] == priced;
  }

  lemma NoItems()
    ensures Stores([]) == []
  {
  }

  lemma OneMoreItem(priced: seq<Item>, n: nat)
    requires n < |priced|
    ensures var before, after, item := priced[..n], priced[..n + 1], priced[n];
            && Stores(after) == (if item.store in Stores(before) then Stores(before) else Stores(before) + [item.store])
            && (item.store !in Stores(before) ==> PricesAt(before, item.store) == [])
            && Distinct(Stores(before))
            && PricesAt(after, item.store) == PricesAt(before, item.store) + [Value(item)]
            && forall store | store != item.store :: PricesAt(after, store) == PricesAt(before, store)
  {
    assert Init(priced[..n + 1]) == priced[..n];
    StoresMeaning(priced[..n]);
    forall store | store != priced[n].store ensures PricesAt(priced[..n + 1], store) == PricesAt(priced[..n], store) {
      assert PricesAt(priced[..n], store) + [] == PricesAt(priced[..n], store);
    }
  }

  predicate Distinct(stores: seq<StoreId>) {
    forall i, j | 0 <= i < j < |stores| :: stores[i] != stores[j]
  }

  /** Each store is listed once, and exactly the listed stores have prices. */
  lemma {:induction false} StoresMeaning(priced: seq<Item>)
    ensures Distinct(Stores(priced))
    ensures forall store :: store in Stores(priced) <==> PricesAt(priced, store) != []
  {
    if priced != [] { StoresMeaning(Init(priced)); }
  }

  predicate Positive(values: seq<real>) {
    forall i | 0 <= i < |values| :: values[i] > 0.0
  }

  lemma MedianPositive(values: seq<real>)
    requires values != [] && Positive(values)
    ensures Median(values).Some? && Median(values).value > 0.0
  {
    hide Median;
    var m := MedianOf(values);
    if m <= 0.0 {
      MedianHalves(values, m);
      CountNone(values, AtMost(m));
    }
  }

  function MedianOf(values: seq<real>): (m: real)
    requires values != []
    ensures Median(values) == Some(m)
  {
    Median(values).value
  }

  lemma {:induction false} PricesPositive(priced: seq<Item>, store: StoreId)
    requires All(priced, Priced)
    ensures Positive(PricesAt(priced, store)) && Positive(AllPrices(priced))
  {
    if priced != [] { PricesPositive(Init(priced), store); }
  }

  /** The market price, when there is one, is positive. */
  lemma MarketPositive(items: seq<Item>)
    ensures Market(items).Some? ==> Market(items).value > 0.0
  {
    hide Median;
    var priced := Where(items, Priced);
    var stores := Stores(priced);
    StoresMeaning(priced);
    forall i | 0 <= i < |stores| ensures StorePrice(priced, stores[i]) > 0.0 {
      PricesPositive(priced, stores[i]);
      MedianPositive(PricesAt(priced, stores[i]));
    }
    if |stores| >= 2 {
      MedianPositive(StorePrices(priced, stores));
    } else if |priced| >= MIN_PRICES_FOR_OUTLIER_CHECK {
      PricesPositive(priced, 0);
      MedianPositive(AllPrices(priced));
    }
  }

  // ----- one store cannot move the market

  /** How many of the stores are in `bad`. */
  ghost function CountIn(stores: seq<StoreId>, bad: set<StoreId>): nat {
    if stores == [] then 0 else CountIn(Init(stores), bad) + if stores[|stores| - 1] in bad then 1 else 0
  }

  lemma {:induction false} GoodWitness(stores: seq<StoreId>, bad: set<StoreId>, values: seq<real>, p: real -> bool) returns (i: nat)
    requires |values| == |stores| && Count(values, p) > CountIn(stores, bad)
    ensures i < |stores| && stores[i] !in bad && p(values[i])
  {
    i := |stores| - 1;
    if stores[i] in bad || !p(values[i]) {
      i := GoodWitness(Init(stores), bad, Init(values), p);
    }
  }

  function NotIn(bad: set<StoreId>): Item -> bool {
    (item: Item) => item.store !in bad
  }

  /** The other stores' items are the same, in the same order; stores in `bad` may state whatever and as much as they like. */
  ghost predicate Tampered(items: seq<Item>, items': seq<Item>, bad: set<StoreId>) {
    Where(items, NotIn(bad)) == Where(items', NotIn(bad))
  }

  /** A store's prices are found among the items of the stores outside `bad`, if it is one of those. */
  lemma {:induction false} OwnPrices(items: seq<Item>, bad: set<StoreId>, store: StoreId)
    requires store !in bad
    ensures PricesAt(Where(items, Priced), store) == PricesAt(Where(Where(items, NotIn(bad)), Priced), store)
  {
    if items != [] {
      var last, others := items[|items| - 1], Where(items, NotIn(bad));
      OwnPrices(Init(items), bad, store);
      WhereStep(items, Priced);
      WhereStep(items, NotIn(bad));
      if last.store !in bad { WhereStep(others, Priced); }
    }
  }

  /** A store outside `bad` has the prices it had. */
  lemma TamperedStore(items: seq<Item>, items': seq<Item>, bad: set<StoreId>, store: StoreId)
    requires Tampered(items, items', bad) && store !in bad
    ensures StorePrice(Where(items', Priced), store) == StorePrice(Where(items, Priced), store)
    ensures store in Stores(Where(items', Priced)) <==> store in Stores(Where(items, Priced))
  {
    OwnPrices(items, bad, store);
    OwnPrices(items', bad, store);
    StoresMeaning(Where(items, Priced));
    StoresMeaning(Where(items', Priced));
  }

  lemma WhereStep(items: seq<Item>, p: Item -> bool)
    requires items != []
    ensures var before, all, last := Where(Init(items), p), Where(items, p), items[|items| - 1];
            && (!p(last) ==> all == before)
            && (p(last) ==> all != [] && Init(all) == before && all[|all| - 1] == last)
  {
  }

  /**
   * Stores that are fewer than half of those with a price, whatever they state
   * and however often, leave the market between what two of the other stores
   * ask and asked before.
   */
  lemma MinorityCannotMoveMarket(items: seq<Item>, items': seq<Item>, bad: set<StoreId>) returns (low: StoreId, high: StoreId)
    requires Tampered(items, items', bad)
    requires |Stores(Where(items', Priced))| >= 2
    requires 2 * CountIn(Stores(Where(items', Priced)), bad) < |Stores(Where(items', Priced))|
    ensures low in Stores(Where(items, Priced)) && low !in bad
    ensures high in Stores(Where(items, Priced)) && high !in bad
    ensures Market(items').Some?
    ensures StorePrice(Where(items, Priced), low) <= Market(items').value <= StorePrice(Where(items, Priced), high)
  {
    hide Where;
    hide Stores;
    hide StorePrice;
    hide Tampered;
    hide Median;
    var stores := Stores(Where(items', Priced));
    var prices := StorePrices(Where(items', Priced), stores);
    var m := MedianOf(prices);
    MedianHalves(prices, m);
    var i := GoodWitness(stores, bad, prices, AtMost(m));
    var j := GoodWitness(stores, bad, prices, AtLeast(m));
    low, high := stores[i], stores[j];
    TamperedStore(items, items', bad, low);
    TamperedStore(items, items', bad, high);
  }

  /** In particular one store out of three or more cannot, not even by withdrawing its prices. */
  lemma OneStoreCannotMoveMarket(items: seq<Item>, items': seq<Item>, store: StoreId) returns (low: StoreId, high: StoreId)
    requires Tampered(items, items', {store})
    requires |Stores(Where(items, Priced))| >= 3
    ensures low in Stores(Where(items, Priced)) && high in Stores(Where(items, Priced)) && low != store && high != store
    ensures Market(items').Some?
    ensures StorePrice(Where(items, Priced), low) <= Market(items').value <= StorePrice(Where(items, Priced), high)
  {
    hide Where;
    hide Stores;
    hide StorePrice;
    hide Tampered;
    var stores, stores' := Stores(Where(items, Priced)), Stores(Where(items', Priced));
    StoresMeaning(Where(items, Priced));
    StoresMeaning(Where(items', Priced));
    forall other | other in stores && other != store ensures other in stores' {
      TamperedStore(items, items', {store}, other);
    }
    TwoOthersRemain(stores, stores', store);
    CountOne(stores', store);
    low, high := MinorityCannotMoveMarket(items, items', {store});
  }

  lemma TwoOthersRemain(stores: seq<StoreId>, stores': seq<StoreId>, store: StoreId)
    requires Distinct(stores) && |stores| >= 3 && forall other | other in stores && other != store :: other in stores'
    ensures |stores'| >= 2 && (store in stores' ==> |stores'| >= 3)
  {
    var a := if stores[0] != store then stores[0] else stores[1];
    var b := if stores[2] != store then stores[2] else stores[1];
    assert a in stores' && b in stores' && a != b && a != store && b != store;
    var i :| 0 <= i < |stores'| && stores'[i] == a;
    var j :| 0 <= j < |stores'| && stores'[j] == b;
    if store in stores' {
      var k :| 0 <= k < |stores'| && stores'[k] == store;
    }
  }

  lemma {:induction false} CountOne(stores: seq<StoreId>, store: StoreId)
    requires Distinct(stores)
    ensures CountIn(stores, {store}) <= 1
    ensures store !in stores ==> CountIn(stores, {store}) == 0
  {
    if stores != [] { CountOne(Init(stores), store); }
  }

  /** Two stores are too few: the market is then the mean of both, so either one can move it anywhere. */
  lemma TwoStoresAverage(items: seq<Item>)
    requires |Stores(Where(items, Priced))| == 2
    ensures var priced := Where(items, Priced);
            var stores := Stores(priced);
            Market(items) == Some((StorePrice(priced, stores[0]) + StorePrice(priced, stores[1])) / 2.0)
  {
    hide Where;
    hide Stores;
    hide StorePrice;
    var priced := Where(items, Priced);
    var stores := Stores(priced);
    var x, y := StorePrice(priced, stores[0]), StorePrice(priced, stores[1]);
    assert StorePrices(priced, stores) == [x, y];
    MedianOfTwo(x, y);
  }

  lemma MedianOfTwo(x: real, y: real)
    ensures Median([x, y]) == Some((x + y) / 2.0)
  {
    assert Init([x, y]) == [x] && Init([x]) == [];
    assert Sort([x]) == [x];
    assert Insert([x], y) == if x <= y then [x, y] else [y, x] by {
      assert Insert([], y) == [y];
    }
  }
}
