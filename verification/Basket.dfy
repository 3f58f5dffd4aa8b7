/**
 * The cheapest way to buy a basket: every item at its own cheapest store, or
 * everything from the one store that carries it all for least.
 *
 * Offer lists are read in order. Only where a lemma says so are they sorted by
 * price, as the offer query returns them.
 */
module Basket {
  import opened Options

  /** Products, platforms and store names are only compared. */
  datatype Item = Item(productId: nat, qty: nat)
  datatype Offer = Offer(platform: nat, store: nat, price: real)
  datatype Line = Line(productId: nat, qty: nat, store: Option<nat>, price: Option<real>)
  datatype Total = Total(total: Option<real>, store: Option<nat>, missing: seq<nat>, lines: seq<Line>)

  type Offers = map<nat, seq<Offer>>

  function Init<T>(s: seq<T>): seq<T>
    requires s != []
  {
    s[..|s| - 1]
  }

  function OffersFor(offers: Offers, productId: nat): seq<Offer> {
    if productId in offers then offers[productId] else []
  }

  /** What a number of pieces costs. */
  function Charge(price: real, qty: nat): real {
    price * qty as real
  }

  /** No pieces cost nothing, one costs its price, and pieces may be charged together or apart. */
  lemma ChargeByPieces(price: real, m: nat, n: nat)
    ensures Charge(price, 0) == 0.0 && Charge(price, 1) == price
    ensures Charge(price, m + n) == Charge(price, m) + Charge(price, n)
  {
    assert price * (m as real + n as real) == price * m as real + price * n as real;
  }

  lemma ChargeMonotone(x: real, y: real, qty: nat)
    requires x <= y
    ensures Charge(x, qty) <= Charge(y, qty)
  {
    assert (y - x) * qty as real >= 0.0;
  }

  /** To the cent, halves up. */
  function ToCents(amount: real): real {
    (amount * 100.0 + 0.5).Floor as real / 100.0
  }

  /** A whole number of cents, less than half a cent below the amount and at most half a cent above. */
  lemma ToCentsMeaning(amount: real)
    ensures (ToCents(amount) * 100.0).Floor as real == ToCents(amount) * 100.0
    ensures amount - 0.005 < ToCents(amount) <= amount + 0.005
  {
    var cents := (amount * 100.0 + 0.5).Floor;
    assert ToCents(amount) * 100.0 == cents as real;
  }

  lemma ToCentsMonotone(x: real, y: real)
    requires x <= y
    ensures ToCents(x) <= ToCents(y)
  {
    var m, n := (x * 100.0 + 0.5).Floor, (y * 100.0 + 0.5).Floor;
    assert m <= n;
    assert m as real <= n as real;
  }

  // ----- every item at its own cheapest store

  function BestLine(item: Item, offers: Offers): Line {
    var here := OffersFor(offers, item.productId);
    if here == [] then Line(item.productId, item.qty, None, None)
    else Line(item.productId, item.qty, Some(here[0].store), Some(here[0].price))
  }

  function BestLines(items: seq<Item>, offers: Offers): seq<Line> {
    if items == [] then [] else BestLines(Init(items), offers) + [BestLine(items[|items| - 1], offers)]
  }

  function Missing(lines: seq<Line>): seq<nat> {
    if lines == [] then []
    else
      var last := lines[|lines| - 1];
      Missing(Init(lines)) + if last.price.None? then [last.productId] else []
  }

  function Amount(line: Line): real {
    Charge(if line.price.Some? then line.price.value else 0.0, line.qty)
  }

  function LineSum(lines: seq<Line>): real {
    if lines == [] then 0.0 else LineSum(Init(lines)) + Amount(lines[|lines| - 1])
  }

  /** The price of a line times its quantity, over all lines; a line without a price counts nothing. */
  ghost function Bill(lines: seq<Line>): real {
    if lines == [] then 0.0
    else
      var last := lines[|lines| - 1];
      Bill(Init(lines)) + if last.price.Some? then last.price.value * last.qty as real else 0.0
  }

  lemma {:induction false} LineSumIsBill(lines: seq<Line>)
    ensures LineSum(lines) == Bill(lines)
  {
    if lines != [] { LineSumIsBill(Init(lines)); }
  }

  function AcrossStores(items: seq<Item>, offers: Offers): Total {
    var lines := BestLines(items, offers);
    var missing := Missing(lines);
    Total(if |lines| > |missing| then Some(ToCents(LineSum(lines))) else None, None, missing, lines)
  }

  // ----- one store for everything, declaratively

  /** The offer the one-store mode takes from each platform: its first in the list. */
  function FirstOffers(here: seq<Offer>): map<nat, Offer> {
    if here == [] then map[]
    else
      var before, last := FirstOffers(Init(here)), here[|here| - 1];
      if last.platform in before then before else before[last.platform := last]
  }

  /** What the basket costs at one platform; none when it lacks an item. */
  function CostAt(items: seq<Item>, offers: Offers, platform: nat): Option<real> {
    if items == [] then Some(0.0)
    else
      var before, item := CostAt(Init(items), offers, platform), items[|items| - 1];
      var here := FirstOffers(OffersFor(offers, item.productId));
      if before.None? || platform !in here then None
      else Some(before.value + Charge(here[platform].price, item.qty))
  }

  // ----- one store for everything, as computed

  datatype Entry = Entry(name: nat, total: real, prices: map<nat, real>)

  predicate Distinct(order: seq<nat>) {
    forall i, j | 0 <= i < j < |order| :: order[i] != order[j]
  }

  /** `order` lists the keys in insertion order. */
  ghost predicate Lists(order: seq<nat>, keys: set<nat>) {
    Distinct(order) && forall platform :: platform in order <==> platform in keys
  }

  method CheapestHere(offers: seq<Offer>) returns (here: map<nat, Offer>, order: seq<nat>)
    ensures here == FirstOffers(offers) && Lists(order, here.Keys)
  {
    here, order := map[], [];
    for n := 0 to |offers|
      invariant here == FirstOffers(offers[..n]) && Lists(order, here.Keys)
    {
      assert Init(offers[..n + 1]) == offers[..n];
      if offers[n].platform !in here {
        here, order := here[offers[n].platform := offers[n]], order + [offers[n].platform];
      }
    }
    assert offers[..|offers|] == offers;
  }

  /** An entry after one more item. */
  function Paid(entry: Entry, item: Item, offer: Offer): Entry {
    Entry(entry.name, entry.total + Charge(offer.price, item.qty), entry.prices[item.productId := offer.price])
  }

  /** The entries before the item is paid for: the first item opens one per platform that has it. */
  function Opened(stores: map<nat, Entry>, first: bool, here: map<nat, Offer>): map<nat, Entry> {
    if first then map platform <- here :: Entry(here[platform].store, 0.0, map[]) else stores
  }

  /** One item: the platforms that have it are charged for it, the others drop out. */
  function Charged(stores: map<nat, Entry>, first: bool, item: Item, here: map<nat, Offer>): map<nat, Entry> {
    var started := Opened(stores, first, here);
    map platform | platform in here && platform in started :: Paid(started[platform], item, here[platform])
  }

  method AddItem(stores: map<nat, Entry>, first: bool, item: Item, here: map<nat, Offer>, order: seq<nat>)
    returns (left: map<nat, Entry>)
    requires Lists(order, here.Keys) && (first ==> stores == map[])
    ensures left == Charged(stores, first, item, here)
  {
    hide Paid;
    left := stores;
    ghost var started, seen: set<nat> := Opened(stores, first, here), {};
    for k := 0 to |order|
      invariant seen <= here.Keys
      invariant forall i | 0 <= i < |order| :: order[i] in seen <==> i < k
      invariant left.Keys == if first then seen else stores.Keys
      invariant forall platform <- left ::
          && platform in started
          && left[platform] == if platform in seen then Paid(started[platform], item, here[platform]) else started[platform]
    {
      var platform := order[k];
      assert platform in here.Keys;
      var offer := here[platform];
      if first { left := left[platform := Entry(offer.store, 0.0, map[])]; }
      seen := seen + {platform};
      if platform !in left { continue; }
      left := left[platform := Paid(left[platform], item, offer)];
    }
    forall platform <- here.Keys ensures platform in seen {
      assert platform in order;
    }
    left := map platform <- left | platform in here :: left[platform];
  }

  /** The entries after all items. */
  function Tally(items: seq<Item>, offers: Offers): map<nat, Entry> {
    if items == [] then map[]
    else
      var item := items[|items| - 1];
      Charged(Tally(Init(items), offers), |items| == 1, item, FirstOffers(OffersFor(offers, item.productId)))
  }

  ghost predicate PricesRecorded(items: seq<Item>, offers: Offers, platform: nat, prices: map<nat, real>) {
    forall i | 0 <= i < |items| ::
      var here := FirstOffers(OffersFor(offers, items[i].productId));
      platform in here && items[i].productId in prices && prices[items[i].productId] == here[platform].price
  }

  /** The entries are exactly the platforms that carry every item, with their costs. */
  lemma {:induction false} TallyCosts(items: seq<Item>, offers: Offers, platform: nat)
    requires items != []
    ensures platform in Tally(items, offers) <==> CostAt(items, offers, platform).Some?
    ensures platform in Tally(items, offers) ==> Tally(items, offers)[platform].total == CostAt(items, offers, platform).value
  {
    hide FirstOffers;
    hide Charge;
    if |items| > 1 {
      TallyCosts(Init(items), offers, platform);
    } else {
      assert Init(items) == [];
    }
  }

  /** And each entry records the price paid for every item. */
  lemma {:induction false} TallyPrices(items: seq<Item>, offers: Offers, platform: nat)
    requires platform in Tally(items, offers)
    ensures PricesRecorded(items, offers, platform, Tally(items, offers)[platform].prices)
  {
    hide FirstOffers;
    hide Charge;
    if |items| > 1 {
      TallyPrices(Init(items), offers, platform);
      var item := items[|items| - 1];
      var here := FirstOffers(OffersFor(offers, item.productId));
      var before := Tally(Init(items), offers)[platform].prices;
      OnePrice(items, offers, platform, before, here[platform].price);
    }
  }

  /** And carries the name its platform has in the offers of the first item. */
  lemma {:induction false} TallyNames(items: seq<Item>, offers: Offers, platform: nat)
    requires platform in Tally(items, offers)
    ensures items != [] && platform in FirstOffers(OffersFor(offers, items[0].productId))
    ensures Tally(items, offers)[platform].name == FirstOffers(OffersFor(offers, items[0].productId))[platform].store
  {
    hide FirstOffers;
    hide Charge;
    if |items| > 1 { TallyNames(Init(items), offers, platform); }
  }

  lemma OnePrice(items: seq<Item>, offers: Offers, platform: nat, before: map<nat, real>, price: real)
    requires items != [] && PricesRecorded(Init(items), offers, platform, before)
    requires var here := FirstOffers(OffersFor(offers, items[|items| - 1].productId));
             platform in here && price == here[platform].price
    ensures PricesRecorded(items, offers, platform, before[items[|items| - 1].productId := price])
  {
    hide FirstOffers;
    assert forall i | 0 <= i < |items| - 1 :: items[i] == Init(items)[i];
  }

  /** Some platform carries every item. */
  ghost predicate Sellable(items: seq<Item>, offers: Offers) {
    exists platform :: CostAt(items, offers, platform).Some?
  }

  method CheapestStore(items: seq<Item>, offers: Offers) returns (result: Total)
    // a total exactly when some platform carries every item
    ensures result.total.Some? <==> items != [] && Sellable(items, offers)
    ensures result.total.None? ==>
              && result.store.None? && result.missing == seq(|items|, i requires 0 <= i < |items| => items[i].productId)
              && forall line <- result.lines :: line.store.None? && line.price.None?
    // otherwise the least cost over all platforms that do, and the prices paid there
    ensures result.total.Some? ==> exists platform :: IsCheapestStore(items, offers, platform, result)
    ensures result.total.Some? ==> result.total == Some(ToCents(Bill(result.lines)))
    ensures |result.lines| == |items|
    ensures forall i | 0 <= i < |items| ::
              result.lines[i].productId == items[i].productId && result.lines[i].qty == items[i].qty
  {
    hide Tally;
    hide CostAt;
    hide PricesRecorded;
    hide FirstOffers;
    hide OffersFor;
    hide Bill;
    hide ToCents;
    var stores, candidates := TallyStores(items, offers);
    var best := Least(stores, candidates);
    if best.None? {
      forall platform: nat | items != [] ensures CostAt(items, offers, platform).None? {
        TallyCosts(items, offers, platform);
      }
      return Total(None, None, seq(|items|, i requires 0 <= i < |items| => items[i].productId),
                   seq(|items|, i requires 0 <= i < |items| => Line(items[i].productId, items[i].qty, None, None)));
    }
    forall platform: nat
      ensures platform in stores <==> CostAt(items, offers, platform).Some?
      ensures platform in stores ==> stores[platform].total == CostAt(items, offers, platform).value
    {
      TallyCosts(items, offers, platform);
    }
    var entry := stores[best.value];
    var lines := seq(|items|, i requires 0 <= i < |items| =>
                       Line(items[i].productId, items[i].qty, Some(entry.name),
                            if items[i].productId in entry.prices then Some(entry.prices[items[i].productId]) else None));
    result := Total(Some(ToCents(entry.total)), Some(entry.name), [], lines);
    TallyPrices(items, offers, best.value);
    TallyNames(items, offers, best.value);
    PricesShown(items, offers, best.value, entry, lines);
    assert Sellable(items, offers);
    assert IsCheapestStore(items, offers, best.value, result);
    LinesAddUp(items, offers, best.value, lines);
  }

  lemma PricesShown(items: seq<Item>, offers: Offers, platform: nat, entry: Entry, lines: seq<Line>)
    requires PricesRecorded(items, offers, platform, entry.prices) && |lines| == |items|
    requires forall i | 0 <= i < |items| && items[i].productId in entry.prices ::
               lines[i].price == Some(entry.prices[items[i].productId])
    ensures forall i | 0 <= i < |items| ::
              var here := FirstOffers(OffersFor(offers, items[i].productId));
              platform in here && lines[i].price == Some(here[platform].price)
  {
    hide FirstOffers;
  }

  method TallyStores(items: seq<Item>, offers: Offers) returns (stores: map<nat, Entry>, candidates: seq<nat>)
    ensures stores == Tally(items, offers) && (items == [] ==> stores == map[])
    ensures forall platform <- stores :: platform in candidates
  {
    hide FirstOffers;
    stores, candidates := map[], [];
    for n := 0 to |items|
      invariant stores == Tally(items[..n], offers)
      invariant forall platform <- stores :: platform in candidates
    {
      assert Init(items[..n + 1]) == items[..n];
      var here, order := CheapestHere(OffersFor(offers, items[n].productId));
      if n == 0 { candidates := order; }
      stores := AddItem(stores, n == 0, items[n], here, order);
    }
    assert items[..|items|] == items;
  }

  /** The result is the basket bought at `platform`, and no platform that carries it all is cheaper. */
  ghost predicate IsCheapestStore(items: seq<Item>, offers: Offers, platform: nat, result: Total) {
    && CostAt(items, offers, platform).Some?
    && (forall other | CostAt(items, offers, other).Some? ::
          CostAt(items, offers, platform).value <= CostAt(items, offers, other).value)
    && result.total == Some(ToCents(CostAt(items, offers, platform).value))
    && result.missing == []
    && items != [] && platform in FirstOffers(OffersFor(offers, items[0].productId))
    && result.store == Some(FirstOffers(OffersFor(offers, items[0].productId))[platform].store)
    && |result.lines| == |items|
    && forall i | 0 <= i < |items| ::
         var here := FirstOffers(OffersFor(offers, items[i].productId));
         platform in here && result.lines[i].price == Some(here[platform].price) && result.lines[i].store == result.store
  }

  /** The first of the cheapest entries, in insertion order. */
  method Least(stores: map<nat, Entry>, candidates: seq<nat>) returns (best: Option<nat>)
    requires forall platform <- stores :: platform in candidates
    ensures best.None? <==> stores == map[]
    ensures best.Some? ==> best.value in stores && forall other <- stores :: stores[best.value].total <= stores[other].total
  {
    best := None;
    for k := 0 to |candidates|
      invariant best.Some? ==> best.value in stores
      invariant forall other <- stores | other in candidates[..k] ::
          best.Some? && stores[best.value].total <= stores[other].total
    {
      var platform := candidates[k];
      if platform in stores && (best.None? || stores[platform].total < stores[best.value].total) {
        best := Some(platform);
      }
    }
    assert candidates[..|candidates|] == candidates;
  }

  // ----- how the two modes relate

  predicate PriceSorted(offers: Offers) {
    forall product <- offers ::
      forall i, j | 0 <= i < j < |offers[product]| :: offers[product][i].price <= offers[product][j].price
  }

  /** In a sorted list the first offer of a platform is its cheapest, and the first of all is no dearer. */
  lemma {:induction false} FirstOfferMeaning(here: seq<Offer>, platform: nat)
    requires forall i, j | 0 <= i < j < |here| :: here[i].price <= here[j].price
    ensures platform in FirstOffers(here) <==> exists i :: 0 <= i < |here| && here[i].platform == platform
    ensures platform in FirstOffers(here) ==>
              && FirstOffers(here)[platform] in here && FirstOffers(here)[platform].platform == platform
              && here[0].price <= FirstOffers(here)[platform].price
              && forall i | 0 <= i < |here| && here[i].platform == platform :: FirstOffers(here)[platform].price <= here[i].price
  {
    if here != [] {
      FirstOfferMeaning(Init(here), platform);
      assert here == Init(here) + [here[|here| - 1]];
    }
  }

  /** A way to buy the whole basket: one offer per item. */
  ghost predicate Buys(items: seq<Item>, offers: Offers, choice: seq<Offer>) {
    |choice| == |items| && forall i | 0 <= i < |items| :: items[i].productId in offers && choice[i] in offers[items[i].productId]
  }

  ghost function Cost(items: seq<Item>, choice: seq<Offer>): real
    requires |choice| == |items|
  {
    if items == [] then 0.0
    else Cost(Init(items), Init(choice)) + Charge(choice[|choice| - 1].price, items[|items| - 1].qty)
  }

  lemma FirstIsCheapest(offers: Offers, product: nat, offer: Offer)
    requires PriceSorted(offers) && product in offers && offer in offers[product]
    ensures OffersFor(offers, product) != [] && OffersFor(offers, product)[0].price <= offer.price
  {
    var here := offers[product];
    var k :| 0 <= k < |here| && here[k] == offer;
    assert k == 0 || here[0].price <= here[k].price;
  }

  lemma LastChoice(items: seq<Item>, offers: Offers, choice: seq<Offer>)
    requires items != [] && Buys(items, offers, choice)
    ensures |choice| == |items|
    ensures Buys(Init(items), offers, Init(choice))
    ensures var item, offer := items[|items| - 1], choice[|choice| - 1];
            item.productId in offers && offer in offers[item.productId]
  {
  }

  /** Buying each item at its first offer is no dearer than any other way to buy the basket. */
  lemma {:induction false} AcrossIsCheapest(items: seq<Item>, offers: Offers, choice: seq<Offer>)
    requires PriceSorted(offers) && Buys(items, offers, choice)
    ensures Missing(BestLines(items, offers)) == [] && |BestLines(items, offers)| == |items|
    ensures LineSum(BestLines(items, offers)) <= Cost(items, choice)
  {
    hide Charge;
    hide OffersFor;
    hide PriceSorted;
    hide Buys;
    if items != [] {
      LastChoice(items, offers, choice);
      AcrossIsCheapest(Init(items), offers, Init(choice));
      var item, offer := items[|items| - 1], choice[|choice| - 1];
      assert Init(BestLines(items, offers)) == BestLines(Init(items), offers);
      FirstIsCheapest(offers, item.productId, offer);
      ChargeMonotone(OffersFor(offers, item.productId)[0].price, offer.price, item.qty);
    }
  }

  /** The basket at one platform is one of the ways to buy it. */
  lemma {:induction false} CostAtIsAChoice(items: seq<Item>, offers: Offers, platform: nat) returns (choice: seq<Offer>)
    requires PriceSorted(offers) && CostAt(items, offers, platform).Some?
    ensures Buys(items, offers, choice) && Cost(items, choice) == CostAt(items, offers, platform).value
    ensures forall i | 0 <= i < |choice| :: choice[i].platform == platform
  {
    hide FirstOffers;
    hide Charge;
    choice := [];
    if items != [] {
      var before := CostAtIsAChoice(Init(items), offers, platform);
      var here := OffersFor(offers, items[|items| - 1].productId);
      FirstOfferMeaning(here, platform);
      assert CostAt(Init(items), offers, platform).Some? && platform in FirstOffers(here);
      choice := before + [FirstOffers(here)[platform]];
      assert Init(choice) == before;
      forall i | 0 <= i < |items| ensures choice[i] in OffersFor(offers, items[i].productId) && choice[i].platform == platform {
        if i < |items| - 1 { assert choice[i] == before[i] && items[i] == Init(items)[i]; }
      }
    }
  }

  /** And the cheapest of those that buy everything there: on sorted offers no choice of one platform's offers costs less. */
  lemma {:induction false} CostAtIsCheapestThere(items: seq<Item>, offers: Offers, platform: nat, choice: seq<Offer>)
    requires PriceSorted(offers) && Buys(items, offers, choice)
    requires forall i | 0 <= i < |choice| :: choice[i].platform == platform
    ensures CostAt(items, offers, platform).Some? && CostAt(items, offers, platform).value <= Cost(items, choice)
  {
    hide FirstOffers;
    hide Charge;
    if items != [] {
      CostAtIsCheapestThere(Init(items), offers, platform, Init(choice));
      var item, offer := items[|items| - 1], choice[|choice| - 1];
      var here := OffersFor(offers, item.productId);
      assert offer in here && offer.platform == platform;
      FirstOfferMeaning(here, platform);
      ChargeMonotone(FirstOffers(here)[platform].price, offer.price, item.qty);
    }
  }

  /** Whenever one platform can sell the whole basket, buying across stores is possible and no dearer, cents included. */
  lemma AcrossNoDearerThanOneStore(items: seq<Item>, offers: Offers, platform: nat)
    requires PriceSorted(offers) && items != [] && CostAt(items, offers, platform).Some?
    ensures AcrossStores(items, offers).missing == []
    ensures AcrossStores(items, offers).total.Some?
    ensures AcrossStores(items, offers).total.value <= ToCents(CostAt(items, offers, platform).value)
  {
    var choice := CostAtIsAChoice(items, offers, platform);
    AcrossIsCheapest(items, offers, choice);
    ToCentsMonotone(LineSum(BestLines(items, offers)), CostAt(items, offers, platform).value);
  }

  /** The lines of a basket bought at one platform. */
  ghost predicate LinesAt(items: seq<Item>, offers: Offers, platform: nat, lines: seq<Line>) {
    && |lines| == |items|
    && forall i | 0 <= i < |items| ::
         var here := FirstOffers(OffersFor(offers, items[i].productId));
         platform in here && lines[i].price == Some(here[platform].price) && lines[i].qty == items[i].qty
  }

  lemma LinesAtInit(items: seq<Item>, offers: Offers, platform: nat, lines: seq<Line>)
    requires LinesAt(items, offers, platform, lines) && items != []
    ensures LinesAt(Init(items), offers, platform, Init(lines))
    ensures var here := FirstOffers(OffersFor(offers, items[|items| - 1].productId));
            platform in here && Amount(lines[|lines| - 1]) == Charge(here[platform].price, items[|items| - 1].qty)
  {
    hide FirstOffers;
    hide OffersFor;
    hide Charge;
    assert forall i | 0 <= i < |items| - 1 :: Init(items)[i] == items[i] && Init(lines)[i] == lines[i];
  }

  lemma {:induction false} LinesSumToCost(items: seq<Item>, offers: Offers, platform: nat, lines: seq<Line>)
    requires LinesAt(items, offers, platform, lines) && CostAt(items, offers, platform).Some?
    ensures LineSum(lines) == CostAt(items, offers, platform).value
  {
    if items != [] {
      hide LinesAt;
      hide FirstOffers;
      hide OffersFor;
      hide Charge;
      hide Amount;
      LinesAtInit(items, offers, platform, lines);
      LinesSumToCost(Init(items), offers, platform, Init(lines));
    }
  }

  /** In one-store mode the line prices times their quantities add up to the total before rounding. */
  lemma LinesAddUp(items: seq<Item>, offers: Offers, platform: nat, lines: seq<Line>)
    requires LinesAt(items, offers, platform, lines) && CostAt(items, offers, platform).Some?
    ensures Bill(lines) == CostAt(items, offers, platform).value
  {
    hide LinesAt;
    hide CostAt;
    LinesSumToCost(items, offers, platform, lines);
    LineSumIsBill(lines);
  }

  // ----- how many pieces

  /** Across stores a piece costs what the first offer asks, and pieces may be put on one line or on two. */
  lemma AcrossByPieces(items: seq<Item>, offers: Offers, product: nat, m: nat, n: nat)
    ensures LineSum(BestLines(items + [Item(product, m + n)], offers))
            == LineSum(BestLines(items + [Item(product, m)] + [Item(product, n)], offers))
    ensures LineSum(BestLines(items + [Item(product, 0)], offers)) == LineSum(BestLines(items, offers))
    ensures OffersFor(offers, product) != [] ==>
              LineSum(BestLines(items + [Item(product, 1)], offers))
              == LineSum(BestLines(items, offers)) + OffersFor(offers, product)[0].price
  {
    hide Charge;
    hide LineSum;
    hide BestLines;
    var p := if OffersFor(offers, product) == [] then 0.0 else OffersFor(offers, product)[0].price;
    ChargeByPieces(p, m, n);
    OneMoreLine(items, Item(product, m + n), offers);
    OneMoreLine(items, Item(product, m), offers);
    OneMoreLine(items + [Item(product, m)], Item(product, n), offers);
    OneMoreLine(items, Item(product, 0), offers);
    OneMoreLine(items, Item(product, 1), offers);
  }

  lemma OneMoreLine(items: seq<Item>, item: Item, offers: Offers)
    ensures var here := OffersFor(offers, item.productId);
            LineSum(BestLines(items + [item], offers))
            == LineSum(BestLines(items, offers)) + Charge(if here == [] then 0.0 else here[0].price, item.qty)
  {
    hide Charge;
    assert Init(items + [item]) == items;
    assert Init(BestLines(items + [item], offers)) == BestLines(items, offers);
  }

  /** At one platform likewise. */
  lemma CostByPieces(items: seq<Item>, offers: Offers, platform: nat, product: nat, m: nat, n: nat)
    ensures CostAt(items + [Item(product, m + n)], offers, platform)
            == CostAt(items + [Item(product, m)] + [Item(product, n)], offers, platform)
  {
    hide FirstOffers;
    hide OffersFor;
    hide Charge;
    hide CostAt;
    var first := items + [Item(product, m)];
    OneMoreItem(items, Item(product, m + n), offers, platform);
    OneMoreItem(items, Item(product, m), offers, platform);
    OneMoreItem(first, Item(product, n), offers, platform);
    var here := FirstOffers(OffersFor(offers, product));
    if platform in here { ChargeByPieces(here[platform].price, m, n); }
  }

  lemma CostOfOnePiece(items: seq<Item>, offers: Offers, platform: nat, product: nat)
    requires CostAt(items, offers, platform).Some? && platform in FirstOffers(OffersFor(offers, product))
    ensures CostAt(items + [Item(product, 0)], offers, platform) == CostAt(items, offers, platform)
    ensures CostAt(items + [Item(product, 1)], offers, platform)
            == Some(CostAt(items, offers, platform).value + FirstOffers(OffersFor(offers, product))[platform].price)
  {
    hide FirstOffers;
    hide OffersFor;
    hide Charge;
    hide CostAt;
    OneMoreItem(items, Item(product, 0), offers, platform);
    OneMoreItem(items, Item(product, 1), offers, platform);
    ChargeByPieces(FirstOffers(OffersFor(offers, product))[platform].price, 0, 1);
  }

  lemma OneMoreItem(items: seq<Item>, item: Item, offers: Offers, platform: nat)
    ensures var before, here := CostAt(items, offers, platform), FirstOffers(OffersFor(offers, item.productId));
            CostAt(items + [item], offers, platform)
            == if before.None? || platform !in here then None else Some(before.value + Charge(here[platform].price, item.qty))
  {
    hide FirstOffers;
    hide Charge;
    assert Init(items + [item]) == items;
  }

  ghost predicate OnOffer(offers: Offers, product: nat) {
    product in offers && offers[product] != []
  }

  /** The lines across stores: each item with its first offer, if it has any. */
  ghost predicate FirstOfferLines(items: seq<Item>, offers: Offers, lines: seq<Line>) {
    && |lines| == |items|
    && forall i | 0 <= i < |items| ::
         var product := items[i].productId;
         && lines[i].productId == product && lines[i].qty == items[i].qty
         && lines[i].store == (if OnOffer(offers, product) then Some(offers[product][0].store) else None)
         && lines[i].price == (if OnOffer(offers, product) then Some(offers[product][0].price) else None)
  }

  lemma {:induction false} BestLinesMeaning(items: seq<Item>, offers: Offers)
    ensures FirstOfferLines(items, offers, BestLines(items, offers))
  {
    if items != [] {
      BestLinesMeaning(Init(items), offers);
      assert Init(BestLines(items, offers)) == BestLines(Init(items), offers);
    }
  }

  /** The missing items are those without an offer, and fewer than all exactly when some item has one. */
  lemma {:induction false} MissingMeaning(items: seq<Item>, offers: Offers, lines: seq<Line>)
    requires FirstOfferLines(items, offers, lines)
    ensures forall product :: product in Missing(lines)
              <==> !OnOffer(offers, product) && exists i :: 0 <= i < |items| && items[i].productId == product
    ensures |Missing(lines)| <= |items|
    ensures |Missing(lines)| == |items| <==> forall i | 0 <= i < |items| :: !OnOffer(offers, items[i].productId)
  {
    hide OnOffer;
    if items != [] {
      MissingMeaning(Init(items), offers, Init(lines));
      assert items == Init(items) + [items[|items| - 1]];
    }
  }

  /** Across stores there is a total exactly when some item is on offer: the rounded bill; the items without an offer are listed. */
  lemma AcrossMeaning(items: seq<Item>, offers: Offers)
    ensures var across := AcrossStores(items, offers);
            && FirstOfferLines(items, offers, across.lines) && across.store.None?
            && (across.total.Some? <==> exists i :: 0 <= i < |items| && OnOffer(offers, items[i].productId))
            && (across.total.Some? ==> across.total.value == ToCents(Bill(across.lines)))
            && forall product :: product in across.missing
                 <==> !OnOffer(offers, product) && exists i :: 0 <= i < |items| && items[i].productId == product
  {
    hide OnOffer;
    hide ToCents;
    BestLinesMeaning(items, offers);
    MissingMeaning(items, offers, BestLines(items, offers));
    LineSumIsBill(BestLines(items, offers));
  }
}
