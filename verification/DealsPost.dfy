/**
 * The daily post: the biggest price drops, at most two of one category.
 *
 * A selection is an increasing sequence of positions in the list of drops. The
 * greedy pass takes, at every rank, a position no later than any other allowed
 * selection does; on drops sorted by size it is therefore optimal.
 */
module DealsPost {

  /** Products and categories are only compared. */
  datatype Drop = Drop(productId: nat, category: nat, dropPct: int)

  const PER_CATEGORY := 2

  ghost predicate Increasing(positions: seq<nat>) {
    forall i, j | 0 <= i < j < |positions| :: positions[i] < positions[j]
  }

  ghost function Positions(selection: seq<nat>): set<nat> {
    set position <- selection
  }

  ghost function InCategory(positions: set<nat>, drops: seq<Drop>, category: nat): set<nat> {
    set position <- positions | position < |drops| && drops[position].category == category
  }

  ghost function Before(positions: set<nat>, bound: nat): set<nat> {
    set position <- positions | position < bound
  }

  /** What a post may contain: at most `size` unposted drops, at most two of one category. */
  ghost predicate Allowed(drops: seq<Drop>, posted: set<nat>, size: nat, selection: seq<nat>) {
    && Increasing(selection)
    && |selection| <= size
    && (forall k | 0 <= k < |selection| :: selection[k] < |drops| && drops[selection[k]].productId !in posted)
    && (forall category :: |InCategory(Positions(selection), drops, category)| <= 2)
  }

  /** Rank by rank, `best` is no later in the list than `other`, and it is no shorter. */
  ghost predicate NoLater(best: seq<nat>, other: seq<nat>) {
    |other| <= |best| && forall k | 0 <= k < |other| :: best[k] <= other[k]
  }

  /** A drop left out was posted, came when the post was full, or had two of its category before it. */
  ghost predicate Greedy(drops: seq<Drop>, posted: set<nat>, size: nat, positions: set<nat>, upTo: nat) {
    forall i | 0 <= i < upTo && i < |drops| && i !in positions && drops[i].productId !in posted ::
      |Before(positions, i)| >= size
      || |InCategory(Before(positions, i), drops, drops[i].category)| >= PER_CATEGORY
  }

  /** An allowed selection that no other allowed one beats at any rank. */
  ghost predicate IsEarliest(drops: seq<Drop>, posted: set<nat>, size: nat, chosen: seq<nat>) {
    Allowed(drops, posted, size, chosen) && forall other | Allowed(drops, posted, size, other) :: NoLater(chosen, other)
  }

  ghost predicate LargestFirst(drops: seq<Drop>) {
    && (forall i, j | 0 <= i < j < |drops| :: drops[i].dropPct >= drops[j].dropPct)
    && (forall i | 0 <= i < |drops| :: drops[i].dropPct >= 0)
  }

  ghost function At(drops: seq<Drop>, selection: seq<nat>): (selected: seq<Drop>)
    requires forall k | 0 <= k < |selection| :: selection[k] < |drops|
    ensures |selected| == |selection|
    ensures forall k | 0 <= k < |selection| :: selected[k] == drops[selection[k]]
  {
    if selection == [] then []
    else At(drops, selection[..|selection| - 1]) + [drops[selection[|selection| - 1]]]
  }

  ghost function TotalDrop(drops: seq<Drop>): int {
    if drops == [] then 0 else TotalDrop(drops[..|drops| - 1]) + drops[|drops| - 1].dropPct
  }

  /** At least as many drops, each at least as large as the one of its rank, and at least as much in total. */
  ghost predicate NoWorse(picks: seq<Drop>, others: seq<Drop>) {
    && |others| <= |picks|
    && (forall k | 0 <= k < |others| :: others[k].dropPct <= picks[k].dropPct)
    && TotalDrop(others) <= TotalDrop(picks)
  }

  /** On drops sorted by size, no allowed selection is better in number, at any rank, or in total. */
  method PickForPost(drops: seq<Drop>, posted: set<nat>, size: nat) returns (picks: seq<Drop>)
    ensures exists chosen :: IsEarliest(drops, posted, size, chosen) && At(drops, chosen) == picks
    ensures LargestFirst(drops) ==> forall other | Allowed(drops, posted, size, other) :: NoWorse(picks, At(drops, other))
  {
    hide InCategory;
    hide Positions;
    hide Before;
    var perCategory: map<nat, nat> := map[];
    picks := [];
    ghost var chosen: seq<nat> := [];
    NothingTaken(drops);
    var n := 0;
    while n < |drops|
      invariant n <= |drops|
      invariant |picks| == |chosen| <= size
      invariant forall k | 0 <= k < |chosen| ::
          chosen[k] < n && picks[k] == drops[chosen[k]] && drops[chosen[k]].productId !in posted
      invariant Increasing(chosen)
      invariant forall category ::
          (if category in perCategory then perCategory[category] else 0)
          == |InCategory(Positions(chosen), drops, category)| <= PER_CATEGORY
      invariant Greedy(drops, posted, size, Positions(chosen), n)
    {
      if |picks| >= size { break; }
      var drop := drops[n];
      if drop.productId in posted {
        n := n + 1;
        continue;
      }
      var used := if drop.category in perCategory then perCategory[drop.category] else 0;
      if used >= PER_CATEGORY {
        AllBefore(chosen, n);
        n := n + 1;
        continue;
      }
      TakeStaysGreedy(drops, posted, size, chosen, n);
      forall category { TakeCounts(drops, chosen, n, category); }
      perCategory := perCategory[drop.category := used + 1];
      picks, chosen := picks + [drop], chosen + [n];
      n := n + 1;
    }
    PositionsSize(chosen);
    forall i | n <= i ensures Before(Positions(chosen), i) == Positions(chosen) {
      AllBefore(chosen, i);
    }
    forall other | Allowed(drops, posted, size, other) ensures NoLater(chosen, other) {
      GreedyIsNoLater(drops, posted, size, chosen, other);
    }
    assert IsEarliest(drops, posted, size, chosen) && At(drops, chosen) == picks;
    if LargestFirst(drops) {
      forall other | Allowed(drops, posted, size, other) ensures NoWorse(picks, At(drops, other)) {
        NoLaterIsBest(drops, chosen, other);
      }
    }
  }

  lemma NothingTaken(drops: seq<Drop>)
    ensures forall category :: InCategory(Positions([]), drops, category) == {}
  {
  }

  lemma AllBefore(chosen: seq<nat>, n: nat)
    requires forall k | 0 <= k < |chosen| :: chosen[k] < n
    ensures Before(Positions(chosen), n) == Positions(chosen)
  {
  }

  /** Taking the next position keeps every earlier decision right. */
  lemma TakeStaysGreedy(drops: seq<Drop>, posted: set<nat>, size: nat, chosen: seq<nat>, n: nat)
    requires n < |drops| && Greedy(drops, posted, size, Positions(chosen), n)
    ensures Greedy(drops, posted, size, Positions(chosen + [n]), n + 1)
  {
    hide InCategory;
    assert Positions(chosen + [n]) == Positions(chosen) + {n};
    forall i | 0 <= i <= n ensures Before(Positions(chosen) + {n}, i) == Before(Positions(chosen), i) {}
  }

  /** Taking the next position adds one to its category. */
  lemma TakeCounts(drops: seq<Drop>, chosen: seq<nat>, n: nat, category: nat)
    requires n < |drops| && (forall k | 0 <= k < |chosen| :: chosen[k] < n)
    ensures |InCategory(Positions(chosen + [n]), drops, category)|
            == |InCategory(Positions(chosen), drops, category)| + if category == drops[n].category then 1 else 0
  {
    hide InCategory;
    var before := Positions(chosen);
    assert Positions(chosen + [n]) == before + {n};
    OneMoreInCategory(drops, before, n, category);
  }

  lemma OneMoreInCategory(drops: seq<Drop>, s: set<nat>, n: nat, category: nat)
    requires n < |drops| && n !in s && forall i <- s :: i < |drops|
    ensures |InCategory(s + {n}, drops, category)| == |InCategory(s, drops, category)| + if category == drops[n].category then 1 else 0
  {
    if category == drops[n].category {
      assert InCategory(s + {n}, drops, category) == InCategory(s, drops, category) + {n};
    } else {
      assert InCategory(s + {n}, drops, category) == InCategory(s, drops, category);
    }
  }

  lemma WithoutCategory(drops: seq<Drop>, s: set<nat>, c: nat, category: nat)
    requires forall i <- s :: i < |drops|
    ensures InCategory(s - InCategory(s, drops, c), drops, category) == if category == c then {} else InCategory(s, drops, category)
  {
  }

  /** If no category has more members in `s` than in `g`, then `s` is no larger than `g`. */
  lemma {:induction false} CategoryByCategory(drops: seq<Drop>, s: set<nat>, g: set<nat>)
    requires forall i | i in s || i in g :: i < |drops|
    requires forall category :: |InCategory(s, drops, category)| <= |InCategory(g, drops, category)|
    ensures |s| <= |g|
    decreases |s|
  {
    if s != {} {
      var x :| x in s;
      var c := drops[x].category;
      var sc, gc := InCategory(s, drops, c), InCategory(g, drops, c);
      forall category
        ensures |InCategory(s - sc, drops, category)| <= |InCategory(g - gc, drops, category)|
      {
        WithoutCategory(drops, s, c, category);
        WithoutCategory(drops, g, c, category);
      }
      assert x in sc;
      CategoryByCategory(drops, s - sc, g - gc);
      assert s == (s - sc) + sc && g == (g - gc) + gc;
    }
  }

  lemma {:induction false} SubsetSize(s: set<nat>, t: set<nat>)
    requires s <= t
    ensures |s| <= |t|
  {
    assert t == s + (t - s);
  }

  /** Up to any position, the greedy pass has taken at least as many as any allowed selection. */
  lemma GreedyTakesMost(drops: seq<Drop>, posted: set<nat>, size: nat, chosen: seq<nat>, other: seq<nat>, bound: nat)
    requires Allowed(drops, posted, size, chosen) && Allowed(drops, posted, size, other)
    requires Greedy(drops, posted, size, Positions(chosen), |drops|)
    ensures |Before(Positions(other), bound)| <= |Before(Positions(chosen), bound)|
  {
    var s, g := Before(Positions(other), bound), Before(Positions(chosen), bound);
    PositionsSize(other);
    SubsetSize(s, Positions(other));
    if |g| < size {
      forall category ensures |InCategory(s, drops, category)| <= |InCategory(g, drops, category)| {
        var sc, gc := InCategory(s, drops, category), InCategory(g, drops, category);
        if sc <= gc {
          SubsetSize(sc, gc);
        } else {
          var i :| i in sc && i !in gc;
          var earlier := Before(Positions(chosen), i);
          SubsetSize(earlier, g);
          SubsetSize(InCategory(earlier, drops, category), gc);
          SubsetSize(sc, InCategory(Positions(other), drops, category));
        }
      }
      CategoryByCategory(drops, s, g);
    }
  }

  lemma {:induction false} PositionsSize(selection: seq<nat>)
    requires Increasing(selection)
    ensures |Positions(selection)| == |selection|
  {
    if selection != [] {
      var last := selection[|selection| - 1];
      var before := selection[..|selection| - 1];
      PositionsSize(before);
      assert Positions(selection) == Positions(before) + {last};
      assert last !in Positions(before);
    }
  }

  /** The first `k` positions are those before the k-th. */
  lemma FirstPositions(selection: seq<nat>, k: nat, bound: nat)
    requires Increasing(selection) && k <= |selection|
    requires forall i | 0 <= i < |selection| :: selection[i] < bound <==> i < k
    ensures |Before(Positions(selection), bound)| == k
  {
    PositionsSize(selection[..k]);
    assert Before(Positions(selection), bound) == Positions(selection[..k]);
  }

  lemma GreedyIsNoLater(drops: seq<Drop>, posted: set<nat>, size: nat, chosen: seq<nat>, other: seq<nat>)
    requires Allowed(drops, posted, size, chosen) && Allowed(drops, posted, size, other)
    requires Greedy(drops, posted, size, Positions(chosen), |drops|)
    ensures NoLater(chosen, other)
  {
    forall k: nat | k < |other| ensures k < |chosen| && chosen[k] <= other[k] {
      GreedyRank(drops, posted, size, chosen, other, k);
    }
    if other != [] { GreedyRank(drops, posted, size, chosen, other, |other| - 1); }
  }

  lemma GreedyRank(drops: seq<Drop>, posted: set<nat>, size: nat, chosen: seq<nat>, other: seq<nat>, k: nat)
    requires Allowed(drops, posted, size, chosen) && Allowed(drops, posted, size, other)
    requires Greedy(drops, posted, size, Positions(chosen), |drops|)
    requires k < |other|
    ensures k < |chosen| && chosen[k] <= other[k]
  {
    hide Greedy;
    var bound := other[k] + 1;
    GreedyTakesMost(drops, posted, size, chosen, other, bound);
    FirstPositions(other, k + 1, bound);
    if k >= |chosen| {
      PositionsSize(chosen);
      SubsetSize(Before(Positions(chosen), bound), Positions(chosen));
    } else if chosen[k] > other[k] {
      PositionsSize(chosen[..k]);
      SubsetSize(Before(Positions(chosen), bound), Positions(chosen[..k]));
    }
  }

  // ----- what this means for drops sorted by size

  lemma {:induction false} TotalOfParts(drops: seq<Drop>, more: seq<Drop>)
    ensures TotalDrop(drops + more) == TotalDrop(drops) + TotalDrop(more)
    ensures |more| == 1 ==> TotalDrop(more) == more[0].dropPct
  {
    if more == [] {
      assert drops + more == drops;
    } else {
      var n := |more| - 1;
      TotalOfParts(drops, more[..n]);
      assert (drops + more)[..|drops| + n] == drops + more[..n];
      if n == 0 { assert more[..n] == []; }
    }
  }

  lemma {:induction false} TotalNoMore(picks: seq<Drop>, others: seq<Drop>)
    requires |others| <= |picks| && forall k | 0 <= k < |others| :: others[k].dropPct <= picks[k].dropPct
    requires forall k | 0 <= k < |picks| :: picks[k].dropPct >= 0
    ensures TotalDrop(others) <= TotalDrop(picks)
    decreases |picks|
  {
    if picks != [] {
      var n := |picks| - 1;
      TotalNoMore(picks[..n], if |others| <= n then others else others[..n]);
    }
  }

  lemma NoLaterIsBest(drops: seq<Drop>, best: seq<nat>, other: seq<nat>)
    requires LargestFirst(drops) && NoLater(best, other)
    requires forall k | 0 <= k < |best| :: best[k] < |drops|
    requires forall k | 0 <= k < |other| :: other[k] < |drops|
    ensures NoWorse(At(drops, best), At(drops, other))
  {
    hide At;
    hide TotalDrop;
    var picks, others := At(drops, best), At(drops, other);
    forall k | 0 <= k < |others| ensures others[k].dropPct <= picks[k].dropPct {
      assert best[k] <= other[k];
    }
    TotalNoMore(picks, others);
  }
}
