/** The built-in numeric sort, the median, and the percentage rank. */
module OrderStatistics {
  import opened Options

  function Init<T>(s: seq<T>): seq<T>
    requires s != []
  {
    s[..|s| - 1]
  }

  function Insert(sorted: seq<real>, x: real): (longer: seq<real>)
    ensures |longer| == |sorted| + 1
  {
    if sorted == [] || sorted[|sorted| - 1] <= x then sorted + [x]
    else Insert(Init(sorted), x) + [sorted[|sorted| - 1]]
  }

  function Sort(values: seq<real>): (sorted: seq<real>)
    ensures |sorted| == |values|
  {
    if values == [] then [] else Insert(Sort(Init(values)), values[|values| - 1])
  }

  predicate Ascending(values: seq<real>) {
    forall i, j | 0 <= i < j < |values| :: values[i] <= values[j]
  }

  /** How many values satisfy `p`. */
  function Count(values: seq<real>, p: real -> bool): nat {
    if values == [] then 0 else Count(Init(values), p) + if p(values[|values| - 1]) then 1 else 0
  }

  lemma {:induction false} CountInsert(sorted: seq<real>, x: real, p: real -> bool)
    ensures Count(Insert(sorted, x), p) == Count(sorted, p) + if p(x) then 1 else 0
  {
    if sorted == [] || sorted[|sorted| - 1] <= x {
      assert Init(sorted + [x]) == sorted;
    } else {
      CountInsert(Init(sorted), x, p);
      assert Init(Insert(Init(sorted), x) + [sorted[|sorted| - 1]]) == Insert(Init(sorted), x);
    }
  }

  /** Sorting neither adds nor drops a value: every count is kept. */
  lemma {:induction false} CountSort(values: seq<real>, p: real -> bool)
    ensures Count(Sort(values), p) == Count(values, p)
  {
    if values != [] {
      CountSort(Init(values), p);
      CountInsert(Sort(Init(values)), values[|values| - 1], p);
    }
  }

  lemma {:induction false} CountAll(values: seq<real>, p: real -> bool)
    requires forall i | 0 <= i < |values| :: p(values[i])
    ensures Count(values, p) == |values|
  {
    if values != [] { CountAll(Init(values), p); }
  }

  lemma {:induction false} CountPrefix(values: seq<real>, n: nat, p: real -> bool)
    requires n <= |values| && forall i | 0 <= i < n :: p(values[i])
    ensures Count(values, p) >= n
  {
    if n > 0 { CountPrefix(Init(values), if n == |values| then n - 1 else n, p); }
  }

  lemma {:induction false} CountSuffix(values: seq<real>, n: nat, p: real -> bool)
    requires n <= |values| && forall i | n <= i < |values| :: p(values[i])
    ensures Count(values, p) >= |values| - n
  {
    if n < |values| { CountSuffix(Init(values), n, p); }
  }

  lemma {:induction false} InsertAscending(sorted: seq<real>, x: real)
    requires Ascending(sorted)
    ensures Ascending(Insert(sorted, x))
    ensures Insert(sorted, x)[|sorted|] == x || (|sorted| > 0 && Insert(sorted, x)[|sorted|] == sorted[|sorted| - 1] > x)
  {
    if sorted != [] && sorted[|sorted| - 1] > x {
      InsertAscending(Init(sorted), x);
    }
  }

  lemma {:induction false} SortAscending(values: seq<real>)
    ensures Ascending(Sort(values))
  {
    if values != [] {
      SortAscending(Init(values));
      InsertAscending(Sort(Init(values)), values[|values| - 1]);
    }
  }

  lemma {:induction false} CountNone(values: seq<real>, p: real -> bool)
    requires forall i | 0 <= i < |values| :: !p(values[i])
    ensures Count(values, p) == 0
  {
    if values != [] { CountNone(Init(values), p); }
  }

  /** The middle value, or the mean of the two middle values. */
  function Median(values: seq<real>): Option<real> {
    if |values| == 0 then None else Some(Middle(Sort(values)))
  }

  function Middle(sorted: seq<real>): real
    requires sorted != []
  {
    var mid := |sorted| / 2;
    if |sorted| % 2 == 0 then (sorted[mid - 1] + sorted[mid]) / 2.0 else sorted[mid]
  }

  /** At least half of the values lie on either side of the median, the median included. */
  lemma MedianHalves(values: seq<real>, m: real)
    requires Median(values) == Some(m)
    ensures 2 * Count(values, AtMost(m)) >= |values|
    ensures 2 * Count(values, AtLeast(m)) >= |values|
  {
    hide Middle;
    hide Sort;
    hide Count;
    SortAscending(values);
    MiddleSplits(Sort(values));
    CountPrefix(Sort(values), (|values| + 1) / 2, AtMost(m));
    CountSort(values, AtMost(m));
    CountSuffix(Sort(values), |values| / 2, AtLeast(m));
    CountSort(values, AtLeast(m));
  }

  /** `x` is the k-th smallest of the values, counting from one. */
  ghost predicate IsSmallest(values: seq<real>, k: nat, x: real) {
    x in values && Count(values, LessThan(x)) < k <= Count(values, AtMost(x))
  }

  /** The median: the middle value, or halfway between the two in the middle. */
  ghost predicate IsMedian(values: seq<real>, m: real) {
    var n := |values|;
    if n % 2 == 1 then IsSmallest(values, n / 2 + 1, m)
    else exists low, high :: InTheMiddle(values, low, high) && m == (low + high) / 2.0
  }

  ghost predicate InTheMiddle(values: seq<real>, low: real, high: real) {
    IsSmallest(values, |values| / 2, low) && IsSmallest(values, |values| / 2 + 1, high)
  }

  function LessThan(m: real): real -> bool { v => v < m }

  /** What stands at a place of the sorted list is the value of that rank. */
  lemma SortedAt(values: seq<real>, k: nat)
    requires k < |values|
    ensures IsSmallest(values, k + 1, Sort(values)[k])
  {
    hide Sort;
    hide Count;
    var sorted, x := Sort(values), Sort(values)[k];
    SortAscending(values);
    CountSort(values, LessThan(x));
    CountSort(values, AtMost(x));
    CountPrefix(sorted, k + 1, AtMost(x));
    CountLimit(sorted, k, LessThan(x));
    assert x in sorted;
    SortedFrom(values, x);
  }

  lemma {:induction false} CountLimit(values: seq<real>, n: nat, p: real -> bool)
    requires n <= |values| && forall i | n <= i < |values| :: !p(values[i])
    ensures Count(values, p) <= n
  {
    if values != [] { CountLimit(Init(values), if n == |values| then n - 1 else n, p); }
  }

  lemma MedianExactly(values: seq<real>)
    ensures Median(values).None? <==> values == []
    ensures values != [] ==> IsMedian(values, Median(values).value)
  {
    hide Sort;
    hide IsSmallest;
    if values != [] {
      var mid := |values| / 2;
      SortedAt(values, mid);
      if |values| % 2 == 0 {
        SortedAt(values, mid - 1);
        assert InTheMiddle(values, Sort(values)[mid - 1], Sort(values)[mid]);
      }
    }
  }

  /** There is only one. */
  lemma MedianUnique(values: seq<real>, m: real, other: real)
    requires IsMedian(values, m) && IsMedian(values, other)
    ensures m == other
  {
    forall k: nat, x, y | IsSmallest(values, k, x) && IsSmallest(values, k, y) ensures x == y { SmallestUnique(values, k, x, y); }
  }

  lemma SmallestUnique(values: seq<real>, k: nat, x: real, y: real)
    requires IsSmallest(values, k, x) && IsSmallest(values, k, y)
    ensures x == y
  {
    if x < y { CountMore(values, AtMost(x), LessThan(y)); }
    if y < x { CountMore(values, AtMost(y), LessThan(x)); }
  }

  lemma {:induction false} CountMore(values: seq<real>, p: real -> bool, q: real -> bool)
    requires forall v :: p(v) ==> q(v)
    ensures Count(values, p) <= Count(values, q)
  {
    if values != [] { CountMore(Init(values), p, q); }
  }

  function AtMost(m: real): real -> bool { v => v <= m }

  function AtLeast(m: real): real -> bool { v => v >= m }

  lemma MiddleSplits(sorted: seq<real>)
    requires sorted != [] && Ascending(sorted)
    ensures forall i | 0 <= i < (|sorted| + 1) / 2 :: sorted[i] <= Middle(sorted)
    ensures forall i | |sorted| / 2 <= i < |sorted| :: sorted[i] >= Middle(sorted)
  {
    var mid := |sorted| / 2;
    if |sorted| % 2 == 0 {
      assert sorted[mid - 1] <= Middle(sorted) <= sorted[mid];
    }
  }

  function Rank(below: nat, equal: nat, total: nat): real
    requires total > 0
  {
    (below as real + equal as real / 2.0) / total as real * 100.0
  }

  /** Where `value` sits within `values`, as a percentage; a tie counts half. */
  function PercentileRank(values: seq<real>, value: real): Option<real> {
    if |values| == 0 then None
    else Some(Rank(Count(values, v => v < value), Count(values, v => v == value), |values|))
  }

  lemma {:induction false} CountRank(values: seq<real>, low: real, high: real)
    requires low <= high
    ensures 2 * Count(values, v => v < low) + Count(values, v => v == low)
            <= 2 * Count(values, v => v < high) + Count(values, v => v == high)
            <= 2 * |values|
  {
    if values != [] { CountRank(Init(values), low, high); }
  }

  lemma RankOrder(below: nat, equal: nat, below': nat, equal': nat, total: nat)
    requires total > 0 && 2 * below + equal <= 2 * below' + equal' <= 2 * total
    ensures 0.0 <= Rank(below, equal, total) <= Rank(below', equal', total) <= 100.0
  {
    var n, x, y := total as real, below as real + equal as real / 2.0, below' as real + equal' as real / 2.0;
    assert x <= y <= n by {
      assert (2 * below + equal) as real == 2.0 * x && (2 * below' + equal') as real == 2.0 * y;
    }
    Divide(x, y, n);
    Divide(y, n, n);
  }

  lemma Divide(x: real, y: real, n: real)
    requires 0.0 <= x <= y && n > 0.0
    ensures 0.0 <= x / n <= y / n && n / n == 1.0
  {
    assert x / n * n == x && y / n * n == y;
  }

  /** A higher value never ranks lower, and a rank is a percentage. */
  lemma RankScaled(below: nat, equal: nat, total: nat)
    requires total > 0
    ensures Rank(below, equal, total) * total as real == 100.0 * below as real + 50.0 * equal as real
  {
    var n := total as real;
    var q := (below as real + equal as real / 2.0) / n;
    assert q * n == below as real + equal as real / 2.0;
    assert (q * 100.0) * n == 100.0 * (q * n);
  }

  lemma RankAgainst(below: nat, equal: nat, total: nat, bound: real)
    requires total > 0
    ensures Rank(below, equal, total) <= bound <==> 100.0 * below as real + 50.0 * equal as real <= bound * total as real
    ensures Rank(below, equal, total) >= bound <==> 100.0 * below as real + 50.0 * equal as real >= bound * total as real
  {
    hide Rank;
    RankScaled(below, equal, total);
    var n, rank := total as real, Rank(below, equal, total);
    assert (bound - rank) * n == bound * n - rank * n;
  }

  /** Every value is below, equal to or above another. */
  lemma {:induction false} CountSides(values: seq<real>, value: real)
    ensures Count(values, v => v < value) + Count(values, v => v == value) + Count(values, v => v > value) == |values|
  {
    if values != [] { CountSides(Init(values), value); }
  }

  /** A sorted list starts with the least value and ends with the greatest. */
  lemma SortEnds(values: seq<real>, least: real, greatest: real)
    requires least in values && greatest in values && forall v <- values :: least <= v <= greatest
    ensures Sort(values)[0] == least && Sort(values)[|values| - 1] == greatest
  {
    hide Sort;
    var sorted := Sort(values);
    SortAscending(values);
    forall i | 0 <= i < |sorted| ensures sorted[i] in values { SortedFrom(values, sorted[i]); }
    SortedFrom(values, least);
    SortedFrom(values, greatest);
    var i :| 0 <= i < |sorted| && sorted[i] == least;
    var j :| 0 <= j < |sorted| && sorted[j] == greatest;
    assert sorted[0] <= sorted[i] && sorted[j] <= sorted[|sorted| - 1];
    assert sorted[0] in values && sorted[|sorted| - 1] in values;
  }

  lemma SortedFrom(values: seq<real>, x: real)
    ensures x in Sort(values) <==> x in values
  {
    hide Sort;
    hide Count;
    CountSort(values, v => v == x);
    CountedIn(values, x);
    CountedIn(Sort(values), x);
  }

  lemma {:induction false} CountedIn(values: seq<real>, x: real)
    ensures Count(values, v => v == x) > 0 <==> x in values
  {
    if values != [] {
      CountedIn(Init(values), x);
      assert values == Init(values) + [values[|values| - 1]];
    }
  }

  lemma RankEnds(total: nat)
    requires total > 0
    ensures Rank(0, 0, total) == 0.0 && Rank(total, 0, total) == 100.0
  {
    var n := total as real;
    assert n / n == 1.0;
  }

  lemma RankMonotone(values: seq<real>, low: real, high: real)
    requires low <= high && values != []
    ensures 0.0 <= PercentileRank(values, low).value <= PercentileRank(values, high).value <= 100.0
  {
    hide Rank;
    CountRank(values, low, high);
    RankOrder(Count(values, v => v < low), Count(values, v => v == low),
              Count(values, v => v < high), Count(values, v => v == high), |values|);
  }
}
