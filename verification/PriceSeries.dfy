/**
 * The daily price series built from change-only history.
 *
 * The builder makes one pass with a cursor per listing. The series itself is
 * defined without cursors or sorting: on each day, every listing counts with
 * its last change on or before that day. Dates are day numbers.
 */
module PriceSeries {
  import opened Options

  /** Listing ids are only ever compared. */
  type ListingId = nat

  datatype Change = Change(listing: ListingId, date: int, price: real, inStock: bool)

  datatype Point = Point(date: int, min: real, max: real, avg: real, count: nat, inStock: bool)

  /** Days a listing's price is still carried after it was last seen. */
  const FILL_GRACE_DAYS := 2

  /** The longest series the builder makes. */
  const MAX_DAYS := 2000

  // ----- the series, declaratively

  function Init<T>(s: seq<T>): seq<T>
    requires s != []
  {
    s[..|s| - 1]
  }

  /** The listings in order of first appearance. */
  function Listings(changes: seq<Change>): seq<ListingId> {
    if changes == [] then []
    else
      var before, listing := Listings(Init(changes)), changes[|changes| - 1].listing;
      if listing in before then before else before + [listing]
  }

  function ChangesOf(changes: seq<Change>, listing: ListingId): seq<Change> {
    if changes == [] then []
    else
      var before, c := ChangesOf(Init(changes), listing), changes[|changes| - 1];
      if c.listing == listing then before + [c] else before
  }

  /** The latest-dated change on or before `day`; of several on one date, the last recorded. */
  function LastChange(changes: seq<Change>, day: int): Option<Change> {
    if changes == [] then None
    else
      var before, c := LastChange(Init(changes), day), changes[|changes| - 1];
      if c.date <= day && (before.None? || before.value.date <= c.date) then Some(c) else before
  }

  predicate Gone(lastSeen: map<ListingId, int>, listing: ListingId, day: int) {
    listing in lastSeen && day > lastSeen[listing] + FILL_GRACE_DAYS
  }

  /** What one listing contributes to a day: nothing before its first change or once it is gone. */
  function Quote(changes: seq<Change>, lastSeen: map<ListingId, int>, listing: ListingId, day: int): seq<Change> {
    var last := LastChange(ChangesOf(changes, listing), day);
    if last.None? || Gone(lastSeen, listing, day) then [] else [last.value]
  }

  function Quotes(changes: seq<Change>, lastSeen: map<ListingId, int>, listings: seq<ListingId>, day: int): seq<Change> {
    if listings == [] then []
    else Quotes(changes, lastSeen, Init(listings), day)
         + Quote(changes, lastSeen, listings[|listings| - 1], day)
  }

  function Prices(quotes: seq<Change>): (prices: seq<real>)
    ensures |prices| == |quotes|
  {
    if quotes == [] then [] else Prices(Init(quotes)) + [quotes[|quotes| - 1].price]
  }

  function Sum(prices: seq<real>): real {
    if prices == [] then 0.0 else Sum(Init(prices)) + prices[|prices| - 1]
  }

  function Least(prices: seq<real>): real
    requires prices != []
  {
    var last := prices[|prices| - 1];
    if |prices| == 1 || last < Least(Init(prices)) then last else Least(Init(prices))
  }

  function Greatest(prices: seq<real>): real
    requires prices != []
  {
    var last := prices[|prices| - 1];
    if |prices| == 1 || last > Greatest(Init(prices)) then last else Greatest(Init(prices))
  }

  predicate AnyInStock(quotes: seq<Change>) {
    quotes != [] && (AnyInStock(Init(quotes)) || quotes[|quotes| - 1].inStock)
  }

  function PointOf(quotes: seq<Change>, day: int): seq<Point> {
    if quotes == [] then []
    else
      var prices := Prices(quotes);
      [Point(day, Least(prices), Greatest(prices), Sum(prices) / |prices| as real, |prices|, AnyInStock(quotes))]
  }

  function DayPoints(changes: seq<Change>, lastSeen: map<ListingId, int>, day: int): seq<Point> {
    PointOf(Quotes(changes, lastSeen, Listings(changes), day), day)
  }

  /** The points of the days from `from` to `until`, both included. */
  function Walk(points: int -> seq<Point>, from: int, until: int): seq<Point>
    decreases until - from
  {
    if until < from then [] else Walk(points, from, until - 1) + points(until)
  }

  function Series(changes: seq<Change>, lastSeen: map<ListingId, int>, from: int, until: int): seq<Point> {
    Walk(day => DayPoints(changes, lastSeen, day), from, until)
  }

  // ----- what the declarations mean

  /** Change `k` is on or before `day`, and no other such change is dated later, or dated the same and recorded later. */
  ghost predicate IsLast(changes: seq<Change>, k: int, day: int) {
    && 0 <= k < |changes| && changes[k].date <= day
    && forall j | 0 <= j < |changes| && changes[j].date <= day ::
         changes[j].date <= changes[k].date && (changes[j].date == changes[k].date ==> j <= k)
  }

  /** The last change is a real change that no other change on or before the day supersedes. */
  lemma {:induction false} LastChangeMeaning(changes: seq<Change>, day: int) returns (k: int)
    ensures LastChange(changes, day).None? <==> forall i | 0 <= i < |changes| :: changes[i].date > day
    ensures LastChange(changes, day).Some? ==> IsLast(changes, k, day) && LastChange(changes, day) == Some(changes[k])
  {
    k := 0;
    if changes != [] {
      var before, n := Init(changes), |changes| - 1;
      k := LastChangeMeaning(before, day);
      assert forall i | 0 <= i < n :: changes[i] == before[i];
      if changes[n].date <= day && (LastChange(before, day).None? || before[k].date <= changes[n].date) {
        k := n;
      }
    }
  }

  /** The extremes are quoted prices that bound every other. */
  lemma {:induction false} ExtremesMeaning(prices: seq<real>)
    requires prices != []
    ensures Least(prices) in prices && Greatest(prices) in prices
    ensures forall i | 0 <= i < |prices| :: Least(prices) <= prices[i] <= Greatest(prices)
  {
    if |prices| > 1 {
      ExtremesMeaning(Init(prices));
      assert prices == Init(prices) + [prices[|prices| - 1]];
    }
  }

  lemma {:induction false} StockMeaning(quotes: seq<Change>)
    ensures AnyInStock(quotes) <==> exists i :: 0 <= i < |quotes| && quotes[i].inStock
  {
    if quotes != [] {
      StockMeaning(Init(quotes));
      assert quotes == Init(quotes) + [quotes[|quotes| - 1]];
    }
  }

  lemma SumOfOne(x: real)
    ensures Sum([x]) == x
  {
    assert Init([x]) == [];
  }

  lemma {:induction false} SumOfBoth(a: seq<real>, b: seq<real>)
    ensures Sum(a + b) == Sum(a) + Sum(b)
  {
    if b == [] {
      assert a + b == a;
    } else {
      SumOfBoth(a, Init(b));
      assert Init(a + b) == a + Init(b);
    }
  }

  lemma {:induction false} PricesOfBoth(a: seq<Change>, b: seq<Change>)
    ensures Prices(a + b) == Prices(a) + Prices(b)
  {
    if b == [] {
      assert a + b == a;
    } else {
      PricesOfBoth(a, Init(b));
      assert Init(a + b) == a + Init(b);
    }
  }

  lemma {:induction false} PricesAt(quotes: seq<Change>)
    ensures forall i | 0 <= i < |quotes| :: Prices(quotes)[i] == quotes[i].price
  {
    if quotes != [] { PricesAt(Init(quotes)); }
  }

  lemma {:induction false} SumBetween(prices: seq<real>, low: real, high: real)
    requires forall i | 0 <= i < |prices| :: low <= prices[i] <= high
    ensures low * |prices| as real <= Sum(prices) <= high * |prices| as real
  {
    if prices != [] {
      SumBetween(Init(prices), low, high);
      var n := |prices| as real;
      assert low * n == low * (n - 1.0) + low && high * n == high * (n - 1.0) + high;
    }
  }

  /** The order of the quotes does not matter to their total. */
  lemma {:induction false} TotalInAnyOrder(a: seq<Change>, b: seq<Change>)
    requires multiset(a) == multiset(b)
    ensures Sum(Prices(a)) == Sum(Prices(b))
  {
    if a == [] {
      assert |multiset(b)| == |b|;
    } else {
      var last := a[|a| - 1];
      assert a == Init(a) + [last];
      assert last in multiset(b);
      var i :| 0 <= i < |b| && b[i] == last;
      assert b == b[..i] + ([last] + b[i + 1..]);
      assert multiset(Init(a)) == multiset(a) - multiset{last} == multiset(b) - multiset{last} == multiset(b[..i] + b[i + 1..]);
      TotalInAnyOrder(Init(a), b[..i] + b[i + 1..]);
      TotalOfParts(b[..i], last, b[i + 1..]);
    }
  }

  lemma TotalOfParts(a: seq<Change>, c: Change, b: seq<Change>)
    ensures Sum(Prices(a + ([c] + b))) == Sum(Prices(a + b)) + c.price
  {
    PricesOfBoth(a, [c] + b);
    PricesOfBoth([c], b);
    PricesOfBoth(a, b);
    assert Init([c]) == [] && Prices([c]) == [c.price];
    SumOfBoth(Prices(a), Prices([c]) + Prices(b));
    SumOfBoth(Prices([c]), Prices(b));
    SumOfBoth(Prices(a), Prices(b));
    SumOfOne(c.price);
  }

  /** The one point of a day with quotes: how many there are, bounds that are attained, and the average between them. */
  ghost predicate Summarises(point: Point, quotes: seq<Change>) {
    && point.count == |quotes|
    && (exists i :: 0 <= i < |quotes| && quotes[i].price == point.min)
    && (exists i :: 0 <= i < |quotes| && quotes[i].price == point.max)
    && (forall i | 0 <= i < |quotes| :: point.min <= quotes[i].price <= point.max)
    && point.min <= point.avg <= point.max
    && point.avg * point.count as real == Sum(Prices(quotes))
    && (point.inStock <==> exists i :: 0 <= i < |quotes| && quotes[i].inStock)
  }

  lemma PointMeaning(quotes: seq<Change>, day: int)
    requires quotes != []
    ensures |PointOf(quotes, day)| == 1 && PointOf(quotes, day)[0].date == day && Summarises(PointOf(quotes, day)[0], quotes)
  {
    hide Least;
    hide Greatest;
    hide Sum;
    hide AnyInStock;
    var prices := Prices(quotes);
    PricesAt(quotes);
    ExtremesMeaning(prices);
    StockMeaning(quotes);
    SumBetween(prices, Least(prices), Greatest(prices));
    MeanBetween(Sum(prices), Least(prices), Greatest(prices), |prices| as real);
    var i :| 0 <= i < |prices| && prices[i] == Least(prices);
    var j :| 0 <= j < |prices| && prices[j] == Greatest(prices);
    assert quotes[i].price == Least(prices) && quotes[j].price == Greatest(prices);
  }

  lemma MeanBetween(sum: real, low: real, high: real, n: real)
    requires n > 0.0 && low * n <= sum <= high * n
    ensures low <= sum / n <= high && sum / n * n == sum
  {
    var mean := sum / n;
    assert mean * n == sum;
    assert (mean - low) * n >= 0.0 && (high - mean) * n >= 0.0;
  }

  /** A point does not depend on the order in which the listings are quoted. */
  lemma PointInAnyOrder(a: seq<Change>, b: seq<Change>, day: int)
    requires multiset(a) == multiset(b)
    ensures PointOf(a, day) == PointOf(b, day)
  {
    assert |a| == |multiset(a)| == |multiset(b)| == |b|;
    if a != [] {
      forall c ensures c in a <==> c in b { assert c in multiset(a) <==> c in multiset(b); }
      PointMeaning(a, day);
      PointMeaning(b, day);
      TotalInAnyOrder(a, b);
      hide PointOf;
      var p, q := PointOf(a, day)[0], PointOf(b, day)[0];
      SameBounds(a, b, p, q);
      SameMean(p.avg, q.avg, p.count as real);
    }
  }

  lemma SameBounds(a: seq<Change>, b: seq<Change>, p: Point, q: Point)
    requires Summarises(p, a) && Summarises(q, b) && forall c :: c in a <==> c in b
    ensures p.min == q.min && p.max == q.max && p.inStock == q.inStock
  {
    forall i | 0 <= i < |a| ensures q.min <= a[i].price <= q.max && (a[i].inStock ==> q.inStock) { assert a[i] in b; }
    forall i | 0 <= i < |b| ensures p.min <= b[i].price <= p.max && (b[i].inStock ==> p.inStock) { assert b[i] in a; }
  }

  lemma SameMean(x: real, y: real, n: real)
    requires n > 0.0 && x * n == y * n
    ensures x == y
  {
    assert (x - y) * n == 0.0;
  }

  // ----- which changes a day quotes

  /** Change `k` is its listing's last on or before `day`, and the listing was seen at most two days before it, if ever. */
  ghost predicate Quoted(changes: seq<Change>, lastSeen: map<ListingId, int>, k: int, day: int) {
    && IsLastOf(changes, k, day)
    && (changes[k].listing in lastSeen ==> day <= lastSeen[changes[k].listing] + 2)
  }

  ghost predicate IsLastOf(changes: seq<Change>, k: int, day: int) {
    && 0 <= k < |changes| && changes[k].date <= day
    && forall j | 0 <= j < |changes| && changes[j].listing == changes[k].listing && changes[j].date <= day ::
         changes[j].date <= changes[k].date && (changes[j].date == changes[k].date ==> j <= k)
  }

  lemma {:induction false} LastChangeOfListing(changes: seq<Change>, listing: ListingId, day: int) returns (k: int)
    ensures LastChange(ChangesOf(changes, listing), day).None?
            <==> forall i | 0 <= i < |changes| && changes[i].listing == listing :: changes[i].date > day
    ensures LastChange(ChangesOf(changes, listing), day).Some? ==>
              IsLastOf(changes, k, day) && changes[k].listing == listing && LastChange(ChangesOf(changes, listing), day) == Some(changes[k])
  {
    k := 0;
    if changes != [] {
      var before, n := Init(changes), |changes| - 1;
      k := LastChangeOfListing(before, listing, day);
      assert forall i | 0 <= i < n :: changes[i] == before[i];
      if changes[n].listing == listing {
        assert Init(ChangesOf(before, listing) + [changes[n]]) == ChangesOf(before, listing);
        if changes[n].date <= day && (LastChange(ChangesOf(before, listing), day).None? || before[k].date <= changes[n].date) {
          k := n;
        }
      }
    }
  }

  lemma {:induction false} ListingsMeaning(changes: seq<Change>, listing: ListingId)
    ensures listing in Listings(changes) <==> exists k :: 0 <= k < |changes| && changes[k].listing == listing
  {
    if changes != [] {
      ListingsMeaning(Init(changes), listing);
      assert changes == Init(changes) + [changes[|changes| - 1]];
    }
  }

  lemma {:induction false} QuotesOf(changes: seq<Change>, lastSeen: map<ListingId, int>, listings: seq<ListingId>, day: int, c: Change)
    ensures c in Quotes(changes, lastSeen, listings, day)
            <==> exists i :: 0 <= i < |listings| && Quote(changes, lastSeen, listings[i], day) == [c]
  {
    hide Quote;
    if listings != [] {
      QuotesOf(changes, lastSeen, Init(listings), day, c);
      assert listings == Init(listings) + [listings[|listings| - 1]];
      OneQuote(changes, lastSeen, listings[|listings| - 1], day);
    }
  }

  lemma OneQuote(changes: seq<Change>, lastSeen: map<ListingId, int>, listing: ListingId, day: int)
    ensures |Quote(changes, lastSeen, listing, day)| <= 1
  {
  }

  lemma QuoteMeaning(changes: seq<Change>, lastSeen: map<ListingId, int>, listing: ListingId, day: int, c: Change)
    ensures Quote(changes, lastSeen, listing, day) == [c]
            <==> c.listing == listing && exists k :: Quoted(changes, lastSeen, k, day) && changes[k] == c
  {
    hide LastChange;
    hide ChangesOf;
    var last := LastChangeOfListing(changes, listing, day);
    if Quote(changes, lastSeen, listing, day) == [c] {
      assert Quoted(changes, lastSeen, last, day) && changes[last] == c;
    }
    if c.listing == listing && exists k :: Quoted(changes, lastSeen, k, day) && changes[k] == c {
      var k :| Quoted(changes, lastSeen, k, day) && changes[k] == c;
      assert k == last;
    }
  }

  /** A day quotes exactly the changes that nothing supersedes, of listings that are not gone. */
  lemma QuotesMeaning(changes: seq<Change>, lastSeen: map<ListingId, int>, day: int, c: Change)
    ensures c in Quotes(changes, lastSeen, Listings(changes), day)
            <==> exists k :: Quoted(changes, lastSeen, k, day) && changes[k] == c
  {
    hide Quote;
    hide Quotes;
    QuotesOf(changes, lastSeen, Listings(changes), day, c);
    QuoteMeaning(changes, lastSeen, c.listing, day, c);
    ListingsMeaning(changes, c.listing);
    forall i | 0 <= i < |Listings(changes)| && Quote(changes, lastSeen, Listings(changes)[i], day) == [c]
      ensures Listings(changes)[i] == c.listing
    {
      QuoteMeaning(changes, lastSeen, Listings(changes)[i], day, c);
    }
    if k :| Quoted(changes, lastSeen, k, day) && changes[k] == c {
      QuotedExists(changes, lastSeen, k, day);
      assert c.listing in Listings(changes);
    }
  }

  lemma QuotedExists(changes: seq<Change>, lastSeen: map<ListingId, int>, k: int, day: int)
    requires Quoted(changes, lastSeen, k, day)
    ensures 0 <= k < |changes|
  {
  }

  /** And no listing twice. */
  lemma {:induction false} QuotedOnce(changes: seq<Change>, lastSeen: map<ListingId, int>, listings: seq<ListingId>, day: int)
    requires forall i, j | 0 <= i < j < |listings| :: listings[i] != listings[j]
    ensures forall q <- Quotes(changes, lastSeen, listings, day) :: q.listing in listings
    ensures forall i, j | 0 <= i < j < |Quotes(changes, lastSeen, listings, day)| ::
              Quotes(changes, lastSeen, listings, day)[i].listing != Quotes(changes, lastSeen, listings, day)[j].listing
  {
    hide LastChange;
    hide ChangesOf;
    if listings != [] {
      var last := listings[|listings| - 1];
      QuotedOnce(changes, lastSeen, Init(listings), day);
      assert listings == Init(listings) + [last];
      OneQuote(changes, lastSeen, last, day);
      var quote := Quote(changes, lastSeen, last, day);
      if quote != [] { QuoteMeaning(changes, lastSeen, last, day, quote[0]); }
    }
  }

  lemma PointOfShape(quotes: seq<Change>, day: int)
    ensures quotes == [] ==> PointOf(quotes, day) == []
    ensures quotes != [] ==> |PointOf(quotes, day)| == 1 && PointOf(quotes, day)[0].date == day
  {
  }

  ghost predicate OnePerDay(points: int -> seq<Point>) {
    forall day :: |points(day)| <= 1 && forall i | 0 <= i < |points(day)| :: points(day)[i].date == day
  }

  /** Dates strictly increase within the range, and every point is the one its day declares. */
  ghost predicate Declared(points: int -> seq<Point>, series: seq<Point>, from: int, until: int) {
    && (forall i, j | 0 <= i < j < |series| :: series[i].date < series[j].date)
    && (forall i | 0 <= i < |series| :: from <= series[i].date <= until && points(series[i].date) == [series[i]])
  }

  lemma {:induction false} WalkDeclared(points: int -> seq<Point>, from: int, until: int)
    requires OnePerDay(points)
    ensures Declared(points, Walk(points, from, until), from, until)
    decreases until - from
  {
    if from <= until {
      WalkDeclared(points, from, until - 1);
      var before, today := Walk(points, from, until - 1), points(until);
      assert forall i | 0 <= i < |before| :: before[i].date < until;
      assert |today| == 0 || today == [today[0]];
    }
  }

  lemma {:induction false} WalkDay(points: int -> seq<Point>, from: int, until: int, day: int) returns (i: nat)
    requires from <= day <= until && points(day) != []
    ensures i < |Walk(points, from, until)| && Walk(points, from, until)[i] == points(day)[0]
    decreases until - from
  {
    if day == until {
      i := |Walk(points, from, until - 1)|;
    } else {
      i := WalkDay(points, from, until - 1, day);
    }
  }

  /** The series holds a point exactly for the days in range on which some listing is quoted. */
  lemma SeriesMeaning(changes: seq<Change>, lastSeen: map<ListingId, int>, from: int, until: int)
    ensures Declared(day => DayPoints(changes, lastSeen, day), Series(changes, lastSeen, from, until), from, until)
    ensures forall day | from <= day <= until ::
              (exists i :: 0 <= i < |Series(changes, lastSeen, from, until)| && Series(changes, lastSeen, from, until)[i].date == day)
              <==> Quotes(changes, lastSeen, Listings(changes), day) != []
  {
    hide DayPoints;
    hide Walk;
    hide Quotes;
    hide Listings;
    var points := day => DayPoints(changes, lastSeen, day);
    forall day ensures |points(day)| <= 1 && forall i | 0 <= i < |points(day)| :: points(day)[i].date == day {
      DayPointsShape(changes, lastSeen, day);
    }
    WalkDeclared(points, from, until);
    forall day | from <= day <= until
      ensures (exists i :: 0 <= i < |Walk(points, from, until)| && Walk(points, from, until)[i].date == day)
              <==> Quotes(changes, lastSeen, Listings(changes), day) != []
    {
      DayPointsShape(changes, lastSeen, day);
      if points(day) != [] {
        var i := WalkDay(points, from, until, day);
      }
    }
  }

  lemma DayPointsShape(changes: seq<Change>, lastSeen: map<ListingId, int>, day: int)
    ensures DayPoints(changes, lastSeen, day) == [] <==> Quotes(changes, lastSeen, Listings(changes), day) == []
    ensures |DayPoints(changes, lastSeen, day)| <= 1
    ensures forall i | 0 <= i < |DayPoints(changes, lastSeen, day)| :: DayPoints(changes, lastSeen, day)[i].date == day
  {
    hide Quotes;
    hide Listings;
    PointOfShape(Quotes(changes, lastSeen, Listings(changes), day), day);
  }

  /** Every point of the series sums up the quotes of its day. */
  lemma SeriesPoint(changes: seq<Change>, lastSeen: map<ListingId, int>, from: int, until: int, i: nat)
    requires i < |Series(changes, lastSeen, from, until)|
    ensures var point := Series(changes, lastSeen, from, until)[i];
            Summarises(point, Quotes(changes, lastSeen, Listings(changes), point.date))
  {
    hide Series;
    hide Quotes;
    hide Listings;
    hide PointOf;
    hide Summarises;
    SeriesMeaning(changes, lastSeen, from, until);
    var point := Series(changes, lastSeen, from, until)[i];
    DayPointsShape(changes, lastSeen, point.date);
    PointMeaning(Quotes(changes, lastSeen, Listings(changes), point.date), point.date);
  }

  // ----- the built-in stable sort, by date

  /** Where a change goes: after every change of the same date or earlier. */
  function Insert(sorted: seq<Change>, c: Change): (longer: seq<Change>)
    ensures |longer| == |sorted| + 1
    ensures forall x <- longer :: x in sorted || x == c
  {
    if sorted == [] || sorted[|sorted| - 1].date <= c.date then sorted + [c]
    else Insert(Init(sorted), c) + [sorted[|sorted| - 1]]
  }

  function SortByDate(changes: seq<Change>): (sorted: seq<Change>)
    ensures |sorted| == |changes|
  {
    if changes == [] then [] else Insert(SortByDate(Init(changes)), changes[|changes| - 1])
  }

  predicate Sorted(changes: seq<Change>) {
    forall i, j | 0 <= i < j < |changes| :: changes[i].date <= changes[j].date
  }

  lemma {:induction false} InsertSorted(sorted: seq<Change>, c: Change)
    requires Sorted(sorted)
    ensures Sorted(Insert(sorted, c))
  {
    if sorted != [] && sorted[|sorted| - 1].date > c.date {
      var before, last := Init(sorted), sorted[|sorted| - 1];
      InsertSorted(before, c);
      var rest := Insert(before, c);
      forall i | 0 <= i < |rest| ensures rest[i].date <= last.date {
        assert rest[i] in rest;
      }
    }
  }

  /** Sorting does not change the last change on or before any day. */
  lemma {:induction false} InsertKeepsLastChange(sorted: seq<Change>, c: Change, day: int)
    requires Sorted(sorted)
    ensures LastChange(Insert(sorted, c), day) == LastChange(sorted + [c], day)
  {
    assert Init(sorted + [c]) == sorted;
    if sorted != [] && sorted[|sorted| - 1].date > c.date {
      var before, last := Init(sorted), sorted[|sorted| - 1];
      InsertKeepsLastChange(before, c, day);
      assert Init(before + [c]) == before;
      assert Init(Insert(before, c) + [last]) == Insert(before, c);
      LastChangeDate(before, day);
    }
  }

  lemma {:induction false} LastChangeDate(sorted: seq<Change>, day: int)
    ensures LastChange(sorted, day).Some? ==> LastChange(sorted, day).value in sorted && LastChange(sorted, day).value.date <= day
  {
    if sorted != [] {
      LastChangeDate(Init(sorted), day);
      assert sorted == Init(sorted) + [sorted[|sorted| - 1]];
    }
  }

  lemma {:induction false} SortByDateSorts(changes: seq<Change>)
    ensures Sorted(SortByDate(changes))
  {
    if changes != [] {
      SortByDateSorts(Init(changes));
      InsertSorted(SortByDate(Init(changes)), changes[|changes| - 1]);
    }
  }

  lemma {:induction false} SortKeepsLastChange(changes: seq<Change>, day: int)
    ensures LastChange(SortByDate(changes), day) == LastChange(changes, day)
  {
    if changes != [] {
      var before, c := SortByDate(Init(changes)), changes[|changes| - 1];
      SortKeepsLastChange(Init(changes), day);
      SortByDateSorts(Init(changes));
      InsertKeepsLastChange(before, c, day);
      assert Init(before + [c]) == before;
    }
  }

  /** In a sorted bucket the last change is the one just before the first that is too late. */
  lemma {:induction false} LastChangeAtCursor(sorted: seq<Change>, day: int, index: nat)
    requires Sorted(sorted) && index <= |sorted|
    requires forall k | 0 <= k < index :: sorted[k].date <= day
    requires index < |sorted| ==> sorted[index].date > day
    ensures LastChange(sorted, day) == if index == 0 then None else Some(sorted[index - 1])
  {
    if sorted != [] {
      var before := Init(sorted);
      if index < |sorted| {
        assert sorted[|sorted| - 1].date > day;
        LastChangeAtCursor(before, day, index);
      } else {
        LastChangeAtCursor(before, day, index - 1);
      }
    }
  }

  lemma LastChangeInBucket(changes: seq<Change>, day: int, index: nat)
    requires index <= |SortByDate(changes)|
    requires forall k | 0 <= k < index :: SortByDate(changes)[k].date <= day
    requires index < |SortByDate(changes)| ==> SortByDate(changes)[index].date > day
    ensures LastChange(changes, day) == if index == 0 then None else Some(SortByDate(changes)[index - 1])
  {
    SortByDateSorts(changes);
    LastChangeAtCursor(SortByDate(changes), day, index);
    SortKeepsLastChange(changes, day);
  }

  // ----- the builder

  datatype Cursor = Cursor(index: nat, price: Option<real>, inStock: bool)

  /** A cursor holds the price and stock of the change it last passed. */
  predicate CursorOn(cursor: Cursor, bucket: seq<Change>) {
    && cursor.index <= |bucket|
    && (cursor.index == 0 ==> cursor.price.None?)
    && (cursor.index > 0 ==>
          var c := bucket[cursor.index - 1];
          cursor.price == Some(c.price) && cursor.inStock == c.inStock)
  }

  function Total(sizes: seq<nat>): nat {
    if sizes == [] then 0 else Total(Init(sizes)) + sizes[|sizes| - 1]
  }

  function Sizes(buckets: seq<seq<Change>>): seq<nat> {
    seq(|buckets|, i requires 0 <= i < |buckets| => |buckets[i]|)
  }

  function Indices(cursors: seq<Cursor>): seq<nat> {
    seq(|cursors|, i requires 0 <= i < |cursors| => cursors[i].index)
  }

  lemma {:induction false} TotalBump(sizes: seq<nat>, i: nat)
    requires i < |sizes|
    ensures Total(sizes[i := sizes[i] + 1]) == Total(sizes) + 1
  {
    if i == |sizes| - 1 {
      assert Init(sizes[i := sizes[i] + 1]) == Init(sizes);
    } else {
      TotalBump(Init(sizes), i);
      assert Init(sizes[i := sizes[i] + 1]) == Init(sizes)[i := sizes[i] + 1];
    }
  }

  lemma {:induction false} TotalMonotone(small: seq<nat>, large: seq<nat>)
    requires |small| == |large| && forall i | 0 <= i < |small| :: small[i] <= large[i]
    ensures Total(small) <= Total(large)
  {
    if small != [] {
      TotalMonotone(Init(small), Init(large));
    }
  }

  /** The buckets of the changes, one per listing in order of first appearance. */
  ghost predicate Grouped(changes: seq<Change>, listings: seq<ListingId>, buckets: seq<seq<Change>>) {
    && listings == Listings(changes)
    && |buckets| == |listings|
    && (forall i | 0 <= i < |buckets| :: buckets[i] == ChangesOf(changes, listings[i]))
    && Total(Sizes(buckets)) == |changes|
  }

  lemma NoChanges()
    ensures Grouped([], [], [])
  {
  }

  /** The next change joins its listing's bucket, or opens one. */
  lemma OneMoreChange(changes: seq<Change>, n: nat)
    requires n < |changes|
    ensures var before, after, c := changes[..n], changes[..n + 1], changes[n];
            && Listings(after) == (if c.listing in Listings(before) then Listings(before) else Listings(before) + [c.listing])
            && (c.listing !in Listings(before) ==> ChangesOf(before, c.listing) == [])
            && (forall i, j | 0 <= i < j < |Listings(before)| :: Listings(before)[i] != Listings(before)[j])
            && forall listing :: ChangesOf(after, listing)
                 == ChangesOf(before, listing) + (if listing == c.listing then [c] else [])
  {
    var before, after, c := changes[..n], changes[..n + 1], changes[n];
    assert Init(after) == before;
    ListingsDistinct(before);
    if c.listing !in Listings(before) { ChangesOfUnseen(before, c.listing); }
    forall listing
      ensures ChangesOf(after, listing) == ChangesOf(before, listing) + (if listing == c.listing then [c] else [])
    {
      assert ChangesOf(before, listing) + [] == ChangesOf(before, listing);
    }
  }

  lemma OneLonger(buckets: seq<seq<Change>>, at: nat, c: Change)
    requires at < |buckets|
    ensures Total(Sizes(buckets[at := buckets[at] + [c]])) == Total(Sizes(buckets)) + 1
  {
    TotalBump(Sizes(buckets), at);
    assert Sizes(buckets[at := buckets[at] + [c]]) == Sizes(buckets)[at := |buckets[at]| + 1];
  }

  lemma OneBucketMore(buckets: seq<seq<Change>>, c: Change)
    ensures Total(Sizes(buckets + [[c]])) == Total(Sizes(buckets)) + 1
  {
    assert Init(Sizes(buckets + [[c]])) == Sizes(buckets);
  }

  method GroupByListing(changes: seq<Change>) returns (listings: seq<ListingId>, buckets: seq<seq<Change>>)
    ensures Grouped(changes, listings, buckets)
  {
    hide ChangesOf;
    hide Listings;
    hide Total;
    hide Sizes;
    listings, buckets := [], [];
    NoChanges();
    for n := 0 to |changes|
      invariant Grouped(changes[..n], listings, buckets)
    {
      var c := changes[n];
      OneMoreChange(changes, n);
      var at := Find(listings, c.listing);
      if at < |listings| {
        OneLonger(buckets, at, c);
        buckets := buckets[at := buckets[at] + [c]];
      } else {
        OneBucketMore(buckets, c);
        listings, buckets := listings + [c.listing], buckets + [[c]];
      }
    }
    assert changes[..|changes|] == changes;
  }

  method Find(listings: seq<ListingId>, listing: ListingId) returns (at: nat)
    ensures at <= |listings|
    ensures at < |listings| ==> listings[at] == listing
    ensures at == |listings| ==> listing !in listings
  {
    at := 0;
    while at < |listings| && listings[at] != listing
      invariant at <= |listings| && forall k | 0 <= k < at :: listings[k] != listing
    {
      at := at + 1;
    }
  }

  lemma {:induction false} ListingsDistinct(changes: seq<Change>)
    ensures forall i, j | 0 <= i < j < |Listings(changes)| :: Listings(changes)[i] != Listings(changes)[j]
  {
    if changes != [] { ListingsDistinct(Init(changes)); }
  }

  lemma {:induction false} ChangesOfUnseen(changes: seq<Change>, listing: ListingId)
    requires listing !in Listings(changes)
    ensures ChangesOf(changes, listing) == []
  {
    if changes != [] { ChangesOfUnseen(Init(changes), listing); }
  }

  /** The bucket of a listing is its changes, sorted by date. */
  ghost predicate SortedBuckets(changes: seq<Change>, listings: seq<ListingId>, buckets: seq<seq<Change>>) {
    && listings == Listings(changes)
    && |buckets| == |listings|
    && forall i | 0 <= i < |buckets| :: buckets[i] == SortByDate(ChangesOf(changes, listings[i]))
  }

  method SortBuckets(changes: seq<Change>, listings: seq<ListingId>, buckets: seq<seq<Change>>)
    returns (sorted: seq<seq<Change>>)
    requires Grouped(changes, listings, buckets)
    ensures SortedBuckets(changes, listings, sorted) && Sizes(sorted) == Sizes(buckets)
  {
    sorted := buckets;
    for i := 0 to |buckets|
      invariant |sorted| == |buckets| && Sizes(sorted) == Sizes(buckets)
      invariant forall k | 0 <= k < i :: sorted[k] == SortByDate(buckets[k])
      invariant forall k | i <= k < |buckets| :: sorted[k] == buckets[k]
    {
      sorted := sorted[i := SortByDate(buckets[i])];
    }
  }

  /** A cursor that has passed no change after `day`. */
  ghost predicate Behind(cursor: Cursor, bucket: seq<Change>, day: int) {
    CursorOn(cursor, bucket) && forall k | 0 <= k < cursor.index :: bucket[k].date <= day
  }

  ghost predicate AllBehind(cursors: seq<Cursor>, buckets: seq<seq<Change>>, day: int) {
    |cursors| == |buckets| && forall i | 0 <= i < |cursors| :: Behind(cursors[i], buckets[i], day)
  }

  lemma StillBehind(cursors: seq<Cursor>, buckets: seq<seq<Change>>, day: int)
    requires AllBehind(cursors, buckets, day)
    ensures AllBehind(cursors, buckets, day + 1)
  {
    forall i | 0 <= i < |cursors| ensures Behind(cursors[i], buckets[i], day + 1) {
      assert Behind(cursors[i], buckets[i], day);
    }
  }

  function FreshCursors(buckets: seq<seq<Change>>, ghost day: int): (cursors: seq<Cursor>)
    ensures AllBehind(cursors, buckets, day)
  {
    seq(|buckets|, _ => Cursor(0, None, true))
  }

  /** Each advance adds one to one cursor, so the cursors' indices count the advances. */
  lemma AdvancesBounded(cursors: seq<Cursor>, buckets: seq<seq<Change>>, day: int)
    requires AllBehind(cursors, buckets, day)
    ensures Total(Indices(cursors)) <= Total(Sizes(buckets))
  {
    forall i | 0 <= i < |cursors| ensures Indices(cursors)[i] <= Sizes(buckets)[i] {
      assert Behind(cursors[i], buckets[i], day);
    }
    TotalMonotone(Indices(cursors), Sizes(buckets));
  }

  /** Moves a cursor past every change on or before `day`; it then holds the listing's last change. */
  method Advance(ghost changes: seq<Change>, bucket: seq<Change>, cursor: Cursor, day: int) returns (moved: Cursor)
    requires bucket == SortByDate(changes) && Behind(cursor, bucket, day)
    ensures Behind(moved, bucket, day) && cursor.index <= moved.index
    ensures LastChange(changes, day) == if moved.index == 0 then None else Some(bucket[moved.index - 1])
  {
    hide SortByDate;
    hide LastChange;
    moved := cursor;
    while moved.index < |bucket| && bucket[moved.index].date <= day
      invariant Behind(moved, bucket, day) && cursor.index <= moved.index
      decreases |bucket| - moved.index
    {
      var c := bucket[moved.index];
      moved := Cursor(moved.index + 1, Some(c.price), c.inStock);
    }
    LastChangeInBucket(changes, day, moved.index);
  }

  lemma NoListings(changes: seq<Change>, lastSeen: map<ListingId, int>, day: int)
    ensures Prices(Quotes(changes, lastSeen, [], day)) == [] && !AnyInStock(Quotes(changes, lastSeen, [], day))
  {
  }

  lemma OneMoreListing(changes: seq<Change>, lastSeen: map<ListingId, int>, listings: seq<ListingId>, i: nat, day: int)
    requires i < |listings|
    ensures var quotes := Quotes(changes, lastSeen, listings[..i], day);
            var more := Quotes(changes, lastSeen, listings[..i + 1], day);
            var quote := Quote(changes, lastSeen, listings[i], day);
            && (quote == [] ==> more == quotes)
            && (quote != [] ==> Prices(more) == Prices(quotes) + [quote[0].price])
            && (quote != [] ==> AnyInStock(more) == (AnyInStock(quotes) || quote[0].inStock))
  {
    hide LastChange;
    hide ChangesOf;
    var quotes := Quotes(changes, lastSeen, listings[..i], day);
    var quote := Quote(changes, lastSeen, listings[i], day);
    assert Init(listings[..i + 1]) == listings[..i];
    assert quote != [] ==> Init(quotes + quote) == quotes;
    assert quotes + [] == quotes;
  }

  /** Every cursor moves, and the listings' quotes are gathered in order. */
  method Gather(changes: seq<Change>, lastSeen: map<ListingId, int>, listings: seq<ListingId>,
                buckets: seq<seq<Change>>, cursors: seq<Cursor>, day: int)
    returns (prices: seq<real>, anyInStock: bool, moved: seq<Cursor>)
    requires SortedBuckets(changes, listings, buckets) && AllBehind(cursors, buckets, day)
    ensures AllBehind(moved, buckets, day)
    ensures forall i | 0 <= i < |cursors| :: cursors[i].index <= moved[i].index
    ensures prices == Prices(Quotes(changes, lastSeen, listings, day))
    ensures anyInStock == AnyInStock(Quotes(changes, lastSeen, listings, day))
  {
    hide Quotes;
    hide Prices;
    hide AnyInStock;
    hide LastChange;
    hide ChangesOf;
    hide Listings;
    moved, prices, anyInStock := cursors, [], false;
    NoListings(changes, lastSeen, day);
    for i := 0 to |listings|
      invariant AllBehind(moved, buckets, day)
      invariant forall k | 0 <= k < |cursors| :: cursors[k].index <= moved[k].index
      invariant prices == Prices(Quotes(changes, lastSeen, listings[..i], day))
      invariant anyInStock == AnyInStock(Quotes(changes, lastSeen, listings[..i], day))
    {
      var cursor := Advance(ChangesOf(changes, listings[i]), buckets[i], moved[i], day);
      moved := moved[i := cursor];
      OneMoreListing(changes, lastSeen, listings, i, day);
      if cursor.price.None? || Gone(lastSeen, listings[i], day) { continue; }
      prices := prices + [cursor.price.value];
      anyInStock := anyInStock || cursor.inStock;
    }
    assert listings[..|listings|] == listings;
  }

  /** One day of the pass. */
  method FillDay(changes: seq<Change>, lastSeen: map<ListingId, int>, listings: seq<ListingId>,
                 buckets: seq<seq<Change>>, cursors: seq<Cursor>, day: int)
    returns (points: seq<Point>, moved: seq<Cursor>)
    requires SortedBuckets(changes, listings, buckets) && AllBehind(cursors, buckets, day)
    ensures AllBehind(moved, buckets, day)
    ensures forall i | 0 <= i < |cursors| :: cursors[i].index <= moved[i].index
    ensures points == DayPoints(changes, lastSeen, day)
  {
    hide Quotes;
    hide Behind;
    hide SortByDate;
    var prices, anyInStock;
    prices, anyInStock, moved := Gather(changes, lastSeen, listings, buckets, cursors, day);
    if |prices| == 0 { return [], moved; }
    points := [Point(day, Least(prices), Greatest(prices), Sum(prices) / |prices| as real, |prices|, anyInStock)];
  }

  /** The last day of a series: MAX_DAYS bounds the days it walks. */
  function LastDay(from: int, until: int): int {
    if until < from + MAX_DAYS then until else from + MAX_DAYS - 1
  }

  /** So a point stands for exactly the quoted days in range, of the first 2000. */
  lemma CutSeries(changes: seq<Change>, lastSeen: map<ListingId, int>, from: int, until: int, day: int)
    ensures (exists i :: 0 <= i < |Series(changes, lastSeen, from, LastDay(from, until))|
                         && Series(changes, lastSeen, from, LastDay(from, until))[i].date == day)
            <==> from <= day <= until && day < from + 2000 && Quotes(changes, lastSeen, Listings(changes), day) != []
  {
    hide Series;
    hide Quotes;
    hide Listings;
    SeriesMeaning(changes, lastSeen, from, LastDay(from, until));
  }

  /** The pass over the days; `advances` counts the changes the cursors passed. */
  method FillDays(changes: seq<Change>, lastSeen: map<ListingId, int>, listings: seq<ListingId>,
                  buckets: seq<seq<Change>>, from: int, until: int)
    returns (series: seq<Point>, ghost advances: nat)
    requires SortedBuckets(changes, listings, buckets) && from <= until
    ensures series == Series(changes, lastSeen, from, LastDay(from, until))
    ensures advances <= Total(Sizes(buckets))
  {
    hide DayPoints;
    hide Behind;
    ghost var points := day => DayPoints(changes, lastSeen, day);
    series := [];
    var cursors := FreshCursors(buckets, from);
    var day, guard := from, 0;
    while day <= until && guard < MAX_DAYS
      invariant day == from + guard && guard <= MAX_DAYS && day <= until + 1
      invariant series == Walk(points, from, day - 1)
      invariant AllBehind(cursors, buckets, day)
      decreases MAX_DAYS - guard
    {
      var today, moved := FillDay(changes, lastSeen, listings, buckets, cursors, day);
      series, cursors := series + today, moved;
      StillBehind(cursors, buckets, day);
      day, guard := day + 1, guard + 1;
    }
    advances := Total(Indices(cursors));
    AdvancesBounded(cursors, buckets, day);
  }

  /**
   * The one-pass builder. `from` and `until` are absent when they are not dates.
   * It makes the declared series, cut after MAX_DAYS days, and the cursors
   * advance no more often than there are changes.
   */
  method ForwardFillDailySeries(changes: seq<Change>, from: Option<int>, until: Option<int>, lastSeen: map<ListingId, int>)
    returns (series: seq<Point>, ghost advances: nat)
    ensures from.None? || until.None? ==> series == []
    ensures from.Some? && until.Some? ==>
              series == Series(changes, lastSeen, from.value, LastDay(from.value, until.value))
    ensures advances <= |changes|
  {
    series, advances := [], 0;
    if |changes| == 0 {
      if from.Some? && until.Some? {
        NoChangesNoSeries(lastSeen, from.value, LastDay(from.value, until.value));
      }
      return;
    }
    var listings, unsorted := GroupByListing(changes);
    var buckets := SortBuckets(changes, listings, unsorted);
    if from.None? || until.None? || until.value < from.value { return; }

    series, advances := FillDays(changes, lastSeen, listings, buckets, from.value, until.value);
  }

  lemma {:induction false} NoChangesNoSeries(lastSeen: map<ListingId, int>, from: int, until: int)
    ensures Series([], lastSeen, from, until) == []
  {
    var points := day => DayPoints([], lastSeen, day);
    WalkNothing(points, from, until);
  }

  lemma {:induction false} WalkNothing(points: int -> seq<Point>, from: int, until: int)
    requires forall day :: points(day) == []
    ensures Walk(points, from, until) == []
    decreases until - from
  {
    if from <= until { WalkNothing(points, from, until - 1); }
  }
}
