/**
 * Watched baskets: the sweep notes each basket's price and tells its owner once
 * when the price comes down to the target, until it has been above it again or
 * the owner moves the target.
 */
module CartWatch {
  import opened Options

  type Id = nat

  /** Times are only stored and compared with absent. */
  datatype Cart = Cart(target: real, total: Option<real>, checkedAt: Option<int>, notifiedAt: Option<int>)

  /** What the basket costs now, and how many of its items no store prices. */
  datatype Price = Price(total: Option<real>, missing: nat)

  predicate Reached(cart: Cart, price: Price) {
    price.total.Some? && price.missing == 0 && price.total.value <= cart.target
  }

  function Checked(cart: Cart, price: Price, now: int): Cart {
    cart.(checkedAt := Some(now), total := price.total,
          notifiedAt := if !Reached(cart, price) then None else if cart.notifiedAt.Some? then cart.notifiedAt else Some(now))
  }

  /** The check of this basket sends a notice. */
  predicate IsNews(cart: Cart, price: Price) {
    Reached(cart, price) && cart.notifiedAt.None?
  }

  datatype Event =
    | Check(price: Price, now: int)
    | SetTarget(target: real)

  function Next(cart: Cart, event: Event): Cart {
    match event
    case Check(price, now) => Checked(cart, price, now)
    case SetTarget(target) => cart.(target := target, notifiedAt := None)
  }

  function After(cart: Cart, events: seq<Event>, n: nat): Cart
    requires n <= |events|
  {
    if n == 0 then cart else Next(After(cart, events, n - 1), events[n - 1])
  }

  /** Event `n` is a check that finds the basket at or under its target. */
  predicate ReachedAt(cart: Cart, events: seq<Event>, n: nat)
    requires n < |events|
  {
    events[n].Check? && Reached(After(cart, events, n), events[n].price)
  }

  predicate NoticeAt(cart: Cart, events: seq<Event>, n: nat)
    requires n < |events|
  {
    events[n].Check? && IsNews(After(cart, events, n), events[n].price)
  }

  /** The target that stands before event `n`: the last one set. */
  function TargetAt(initial: real, events: seq<Event>, n: nat): real
    requires n <= |events|
  {
    if n == 0 then initial else if events[n - 1].SetTarget? then events[n - 1].target else TargetAt(initial, events, n - 1)
  }

  /** Reached means: every item has a price, and all of them together come to no more than the target that stands. */
  lemma {:induction false} ReachedMeaning(cart: Cart, events: seq<Event>, n: nat)
    requires n <= |events|
    ensures After(cart, events, n).target == TargetAt(cart.target, events, n)
    ensures n < |events| ==>
              (ReachedAt(cart, events, n)
               <==> && events[n].Check? && events[n].price.total.Some? && events[n].price.missing == 0
                    && events[n].price.total.value <= TargetAt(cart.target, events, n))
  {
    if n > 0 { ReachedMeaning(cart, events, n - 1); }
  }

  /** A new basket's owner hears of exactly those checks that find it reached when the event before did not. */
  lemma NoticeExactly(cart: Cart, events: seq<Event>, n: nat)
    requires cart.notifiedAt.None? && n < |events|
    ensures NoticeAt(cart, events, n) <==> ReachedAt(cart, events, n) && !(n > 0 && ReachedAt(cart, events, n - 1))
  {
    if n > 0 {
      assert After(cart, events, n) == Next(After(cart, events, n - 1), events[n - 1]);
    }
  }

  /** Between two notices the price was above the target, or the target moved. */
  lemma {:induction false} RearmedBetween(cart: Cart, events: seq<Event>, first: nat, second: nat) returns (between: nat)
    requires cart.notifiedAt.None? && first < second < |events|
    requires NoticeAt(cart, events, first) && NoticeAt(cart, events, second)
    ensures first < between < second && !ReachedAt(cart, events, between)
  {
    between := second - 1;
    NoticeExactly(cart, events, second);
    assert first != between by {
      if first == between { assert ReachedAt(cart, events, first); }
    }
  }

  /** And a basket that is reached has a notice to show for it: the first of the unbroken checks that found it so. */
  lemma {:induction false} ReachedWasTold(cart: Cart, events: seq<Event>, n: nat) returns (told: nat)
    requires cart.notifiedAt.None? && n < |events| && ReachedAt(cart, events, n)
    ensures told <= n && NoticeAt(cart, events, told)
    ensures forall k :: told <= k <= n ==> ReachedAt(cart, events, k)
  {
    NoticeExactly(cart, events, n);
    if NoticeAt(cart, events, n) {
      told := n;
    } else {
      told := ReachedWasTold(cart, events, n - 1);
    }
  }

  predicate Distinct(ids: seq<Id>) {
    forall i, j :: 0 <= i < j < |ids| ==> ids[i] != ids[j]
  }

  /** The baskets of the batch that are news, in order. */
  function Told(carts: map<Id, Cart>, batch: seq<Id>, prices: map<Id, Price>): seq<Id>
    requires forall i :: 0 <= i < |batch| ==> batch[i] in carts && batch[i] in prices
  {
    if batch == [] then []
    else
      var last := |batch| - 1;
      Told(carts, batch[..last], prices) + if IsNews(carts[batch[last]], prices[batch[last]]) then [batch[last]] else []
  }

  lemma EmptyBatch(carts: map<Id, Cart>, prices: map<Id, Price>)
    ensures Told(carts, [], prices) == []
  {
  }

  lemma NotBefore(batch: seq<Id>, i: nat)
    requires Distinct(batch) && i < |batch|
    ensures batch[i] !in batch[..i] && forall id :: id in batch[..i + 1] <==> id in batch[..i] || id == batch[i]
  {
    assert batch[..i + 1] == batch[..i] + [batch[i]];
  }

  lemma ToldNext(carts: map<Id, Cart>, batch: seq<Id>, prices: map<Id, Price>, i: nat)
    requires i < |batch| && forall k :: 0 <= k < |batch| ==> batch[k] in carts && batch[k] in prices
    ensures Told(carts, batch[..i + 1], prices)
            == Told(carts, batch[..i], prices) + if IsNews(carts[batch[i]], prices[batch[i]]) then [batch[i]] else []
  {
    assert batch[..i + 1][..i] == batch[..i];
  }

  lemma {:induction false} ToldMeaning(carts: map<Id, Cart>, batch: seq<Id>, prices: map<Id, Price>)
    requires Distinct(batch) && forall k :: 0 <= k < |batch| ==> batch[k] in carts && batch[k] in prices
    ensures forall id :: id in Told(carts, batch, prices) <==> id in batch && IsNews(carts[id], prices[id])
    ensures Distinct(Told(carts, batch, prices))
  {
    if batch != [] {
      var last := |batch| - 1;
      ToldMeaning(carts, batch[..last], prices);
      assert batch == batch[..last] + [batch[last]];
    }
  }

  class CartWatchService {
    var carts: map<Id, Cart>

    /** One sweep over the baskets the query returned. A notice counts as given even if sending it fails. */
    method EvaluateAll(batch: seq<Id>, prices: map<Id, Price>, now: int) returns (sent: seq<Id>)
      requires Distinct(batch) && forall i :: 0 <= i < |batch| ==> batch[i] in carts && batch[i] in prices
      modifies this
      ensures carts.Keys == old(carts).Keys
      ensures forall id <- carts ::
                carts[id] == if id in batch then Checked(old(carts)[id], prices[id], now) else old(carts)[id]
      ensures sent == Told(old(carts), batch, prices)
      // in full: a basket is told of exactly when it has all its prices, is at or under the target, and no notice stands
      ensures forall id :: id in sent <==>
                && id in batch && old(carts)[id].notifiedAt.None?
                && prices[id].total.Some? && prices[id].missing == 0 && prices[id].total.value <= old(carts)[id].target
      ensures Distinct(sent)
      // and keeps its notice exactly while it is so
      ensures forall id <- batch ::
                && carts[id].target == old(carts)[id].target && carts[id].total == prices[id].total && carts[id].checkedAt == Some(now)
                && (carts[id].notifiedAt.Some? <==>
                      prices[id].total.Some? && prices[id].missing == 0 && prices[id].total.value <= old(carts)[id].target)
                && (carts[id].notifiedAt.Some? ==>
                      carts[id].notifiedAt == if old(carts)[id].notifiedAt.Some? then old(carts)[id].notifiedAt else Some(now))
    {
      hide Told;
      hide Distinct;
      sent := [];
      ghost var before := carts;
      assert batch[..0] == [] && batch[..|batch|] == batch;
      assert Told(before, batch[..0], prices) == [] by { EmptyBatch(before, prices); }
      for i := 0 to |batch|
        invariant carts.Keys == before.Keys
        invariant forall id <- carts :: carts[id] == if id in batch[..i] then Checked(before[id], prices[id], now) else before[id]
        invariant sent == Told(before, batch[..i], prices)
      {
        var id := batch[i];
        NotBefore(batch, i);
        ToldNext(before, batch, prices, i);
        var cart, price := carts[id], prices[id];
        var reached := Reached(cart, price);
        carts := carts[id := cart.(checkedAt := Some(now), total := price.total,
                                   notifiedAt := if !reached && cart.notifiedAt.Some? then None else cart.notifiedAt)];
        if reached && cart.notifiedAt.None? {
          carts := carts[id := carts[id].(notifiedAt := Some(now))];
          sent := sent + [id];
        }
      }
      ToldMeaning(before, batch, prices);
    }
  }
}
