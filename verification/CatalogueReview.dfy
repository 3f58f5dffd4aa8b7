/**
 * Where listings, alerts and review items end up when the judge reviews a run of merges in log order,
 * approving some and undoing the others.
 */
module CatalogueReview {
  import opened Options
  import opened CatalogueTables
  import opened CatalogueRuns
  import opened CatalogueChains
  import opened Reconciliation

  /** The log positions in the queue that the judge does not approve. */
  ghost function Rejected(queue: seq<nat>, judge: nat -> Option<bool>): set<nat> {
    set n <- queue | judge(n) != Some(true)
  }

  /** The owners after giving back what the rejected ones of these merges moved, the first first; `merges[i]` is at position `base + i`. */
  ghost function GiveBackSome(owners: Owners, merges: seq<Merge>, kind: Kind, base: nat, rejected: set<nat>): (after: Owners)
    ensures after.Keys == owners.Keys
  {
    if merges == [] then owners
    else
      var n := |merges| - 1;
      var before := GiveBackSome(owners, Init(merges), kind, base, rejected);
      if base + n in rejected then GiveBack(before, MovedOf(merges[n], kind), merges[n].merged) else before
  }

  /** Reviewing keeps what the log says was moved. */
  ghost predicate SameMoves(a: seq<Merge>, b: seq<Merge>, kind: Kind) {
    |a| == |b| && forall m | 0 <= m < |a| :: MovedOf(a[m], kind) == MovedOf(b[m], kind) && a[m].merged == b[m].merged
  }

  lemma ReviewMoves(t: Tables, merges: seq<Merge>, kind: Kind, n: nat, verdict: Option<bool>, newRows: map<Id, Id>)
    requires SameMoves(t.merges, merges, kind) && n < |merges|
    ensures |t.merges| == |merges| && SameMoves(Review(t, n, verdict, newRows).merges, merges, kind)
    ensures OwnersOf(Review(t, n, verdict, newRows), kind)
            == if verdict == Some(true) then OwnersOf(t, kind) else GiveBack(OwnersOf(t, kind), MovedOf(merges[n], kind), merges[n].merged)
  {
    if verdict != Some(true) { UndoneOwners(t, n, newRows, kind); }
    var after := Review(t, n, verdict, newRows).merges;
    assert forall m | 0 <= m < |after| && m != n :: after[m] == t.merges[m];
    hide GiveBack;
    hide OwnersOf;
    assert MovedOf(after[n], kind) == MovedOf(t.merges[n], kind) && after[n].merged == t.merges[n].merged;
  }

  ghost predicate InLog(queue: seq<nat>, low: nat, high: nat) {
    forall k | 0 <= k < |queue| :: low <= queue[k] < high
  }

  /** Between `base` and `n`, the rejected positions are those of the queue that the judge does not approve. */
  ghost predicate Decides(queue: seq<nat>, judge: nat -> Option<bool>, rejected: set<nat>, base: nat, n: nat) {
    forall m | base <= m < n :: m in rejected <==> m in queue && judge(m) != Some(true)
  }

  ghost predicate Queued(queue: seq<nat>, judge: nat -> Option<bool>, rejected: set<nat>, base: nat, n: nat) {
    Increasing(queue) && InLog(queue, base, n) && Decides(queue, judge, rejected, base, n)
  }

  /** One position less: the last of the queue, or one that is not in it. */
  lemma OnePositionLess(queue: seq<nat>, judge: nat -> Option<bool>, rejected: set<nat>, base: nat, n: nat)
    requires base < n && Queued(queue, judge, rejected, base, n)
    ensures if queue != [] && queue[|queue| - 1] == n - 1
            then Queued(Init(queue), judge, rejected, base, n - 1) && (n - 1 in rejected <==> judge(n - 1) != Some(true))
            else Queued(queue, judge, rejected, base, n - 1) && n - 1 !in rejected
  {
    if queue != [] {
      var last := queue[|queue| - 1];
      assert queue == Init(queue) + [last];
      assert forall m | base <= m < last :: m in queue <==> m in Init(queue);
    }
  }

  lemma OneMoreGivenBack(owners: Owners, merges: seq<Merge>, kind: Kind, base: nat, n: nat, rejected: set<nat>)
    requires base < n <= |merges|
    ensures var before := GiveBackSome(owners, merges[base..n - 1], kind, base, rejected);
            GiveBackSome(owners, merges[base..n], kind, base, rejected)
            == if n - 1 in rejected then GiveBack(before, MovedOf(merges[n - 1], kind), merges[n - 1].merged) else before
  {
    assert Init(merges[base..n]) == merges[base..n - 1] && merges[base..n][n - 1 - base] == merges[n - 1];
  }

  /** What the tables have come to at position `n`. */
  ghost predicate ReviewedTo(t: Tables, soFar: Tables, kind: Kind, base: nat, n: nat, rejected: set<nat>)
    requires base <= n <= |t.merges|
  {
    SameMoves(soFar.merges, t.merges, kind) && OwnersOf(soFar, kind) == GiveBackSome(OwnersOf(t, kind), t.merges[base..n], kind, base, rejected)
  }

  lemma SkipPosition(t: Tables, soFar: Tables, kind: Kind, base: nat, n: nat, rejected: set<nat>)
    requires base < n <= |t.merges| && ReviewedTo(t, soFar, kind, base, n - 1, rejected) && n - 1 !in rejected
    ensures ReviewedTo(t, soFar, kind, base, n, rejected)
  {
    OneMoreGivenBack(OwnersOf(t, kind), t.merges, kind, base, n, rejected);
  }

  lemma OneMorePosition(t: Tables, soFar: Tables, kind: Kind, base: nat, n: nat, rejected: set<nat>, verdict: Option<bool>, newRows: map<Id, Id>)
    requires base < n <= |t.merges| && ReviewedTo(t, soFar, kind, base, n - 1, rejected)
    requires n - 1 in rejected <==> verdict != Some(true)
    ensures |soFar.merges| == |t.merges| && ReviewedTo(t, Review(soFar, n - 1, verdict, newRows), kind, base, n, rejected)
  {
    hide SameMoves;
    hide GiveBackSome;
    hide Review;
    ReviewMoves(soFar, t.merges, kind, n - 1, verdict, newRows);
    OneMoreGivenBack(OwnersOf(t, kind), t.merges, kind, base, n, rejected);
  }

  lemma QueueInLog(t: Tables, queue: seq<nat>, judge: nat -> Option<bool>, rejected: set<nat>, base: nat, n: nat)
    requires n <= |t.merges| && Queued(queue, judge, rejected, base, n)
    ensures forall j | 0 <= j < |queue| :: queue[j] < |t.merges|
    ensures n == base ==> queue == []
  {
    if queue != [] { assert base <= queue[0] < n; }
  }

  lemma NothingToReview(t: Tables, kind: Kind, base: nat, rejected: set<nat>)
    requires base <= |t.merges|
    ensures ReviewedTo(t, t, kind, base, base, rejected)
  {
  }

  lemma {:induction false} ReviewGivesBack(t: Tables, queue: seq<nat>, judge: nat -> Option<bool>, newRows: seq<map<Id, Id>>,
                                           kind: Kind, rejected: set<nat>, base: nat, n: nat)
    requires |newRows| == |t.merges| && base <= n <= |t.merges| && Queued(queue, judge, rejected, base, n)
    ensures forall j | 0 <= j < |queue| :: queue[j] < |t.merges|
    ensures ReviewedTo(t, ReviewAll(t, queue, judge, newRows), kind, base, n, rejected)
    decreases n
  {
    hide Queued;
    hide ReviewedTo;
    hide Review;
    QueueInLog(t, queue, judge, rejected, base, n);
    if n == base {
      NothingToReview(t, kind, base, rejected);
    } else {
      OnePositionLess(queue, judge, rejected, base, n);
      if queue != [] && queue[|queue| - 1] == n - 1 {
        ReviewGivesBack(t, Init(queue), judge, newRows, kind, rejected, base, n - 1);
        OneMorePosition(t, ReviewAll(t, Init(queue), judge, newRows), kind, base, n, rejected, judge(n - 1), newRows[n - 1]);
      } else {
        hide ReviewAll;
        ReviewGivesBack(t, queue, judge, newRows, kind, rejected, base, n - 1);
        SkipPosition(t, ReviewAll(t, queue, judge, newRows), kind, base, n, rejected);
      }
    }
  }

  // ----- which rows come back

  /** Merge `i` moved the row and was rejected, and every other merge that moved it came later and was not. */
  ghost predicate OnlyFirstRejected(merges: seq<Merge>, kind: Kind, base: nat, rejected: set<nat>, row: Id, i: int) {
    && 0 <= i < |merges| && row in MovedOf(merges[i], kind) && base + i in rejected
    && forall j | 0 <= j < |merges| && j != i && row in MovedOf(merges[j], kind) :: i < j && base + j !in rejected
  }

  ghost predicate ComesBack(merges: seq<Merge>, kind: Kind, base: nat, rejected: set<nat>, row: Id) {
    !MovedIn(merges, kind, row) || exists i :: OnlyFirstRejected(merges, kind, base, rejected, row, i)
  }

  ghost predicate RejectedMove(merges: seq<Merge>, kind: Kind, base: nat, rejected: set<nat>, row: Id) {
    exists i :: 0 <= i < |merges| && row in MovedOf(merges[i], kind) && base + i in rejected
  }

  lemma RejectedSplit(merges: seq<Merge>, kind: Kind, base: nat, rejected: set<nat>, row: Id)
    requires merges != []
    ensures var n := |merges| - 1;
            RejectedMove(merges, kind, base, rejected, row)
            <==> RejectedMove(Init(merges), kind, base, rejected, row) || (row in MovedOf(merges[n], kind) && base + n in rejected)
  {
    assert forall i | 0 <= i < |merges| - 1 :: Init(merges)[i] == merges[i];
  }

  /** Without a rejected move a row is where it was; with one, where it was does not matter. */
  lemma {:induction false} GivenBackAt(a: Owners, b: Owners, merges: seq<Merge>, kind: Kind, base: nat, rejected: set<nat>, row: Id)
    requires row in a && row in b
    ensures if RejectedMove(merges, kind, base, rejected, row)
            then GiveBackSome(a, merges, kind, base, rejected)[row] == GiveBackSome(b, merges, kind, base, rejected)[row]
            else GiveBackSome(a, merges, kind, base, rejected)[row] == a[row]
  {
    if merges != [] {
      GivenBackAt(a, b, Init(merges), kind, base, rejected, row);
      RejectedSplit(merges, kind, base, rejected, row);
    }
  }

  lemma ComesBackSplit(merges: seq<Merge>, kind: Kind, base: nat, rejected: set<nat>, row: Id)
    requires merges != []
    ensures var n := |merges| - 1;
            ComesBack(merges, kind, base, rejected, row)
            <==> if row !in MovedOf(merges[n], kind) then ComesBack(Init(merges), kind, base, rejected, row)
                 else if base + n in rejected then !MovedIn(Init(merges), kind, row)
                 else MovedIn(Init(merges), kind, row) && ComesBack(Init(merges), kind, base, rejected, row)
  {
    var n := |merges| - 1;
    assert forall i | 0 <= i < n :: Init(merges)[i] == merges[i];
    MovedSplit(merges, kind, row);
    if row in MovedOf(merges[n], kind) && base + n in rejected {
      assert !MovedIn(Init(merges), kind, row) ==> OnlyFirstRejected(merges, kind, base, rejected, row, n);
    } else {
      assert forall i | i < n :: OnlyFirstRejected(merges, kind, base, rejected, row, i)
                                 <==> OnlyFirstRejected(Init(merges), kind, base, rejected, row, i);
    }
  }

  lemma RejectedIsMoved(merges: seq<Merge>, kind: Kind, base: nat, rejected: set<nat>, row: Id)
    requires RejectedMove(merges, kind, base, rejected, row)
    ensures MovedIn(merges, kind, row)
  {
  }

  lemma ComesBackMoved(merges: seq<Merge>, kind: Kind, base: nat, rejected: set<nat>, row: Id)
    requires MovedIn(merges, kind, row) && ComesBack(merges, kind, base, rejected, row)
    ensures RejectedMove(merges, kind, base, rejected, row)
  {
  }

  lemma GivenBackLast(owners: Owners, merges: seq<Merge>, kind: Kind, base: nat, rejected: set<nat>, row: Id)
    requires merges != [] && row in owners
    ensures var n := |merges| - 1;
            GiveBackSome(owners, merges, kind, base, rejected)[row]
            == if row in MovedOf(merges[n], kind) && base + n in rejected then Some(merges[n].merged)
               else GiveBackSome(owners, Init(merges), kind, base, rejected)[row]
  {
  }

  lemma {:induction false} ReviewedRow(t: Tables, steps: seq<Step>, kind: Kind, rejected: set<nat>, row: Id)
    requires IsRun(t, steps) && row in OwnersOf(t, kind) && row in OwnersOf(MergeAll(t, steps), kind)
    ensures GiveBackSome(OwnersOf(MergeAll(t, steps), kind), LogOf(t, steps), kind, |t.merges|, rejected)[row] == OwnersOf(t, kind)[row]
            <==> ComesBack(LogOf(t, steps), kind, |t.merges|, rejected, row)
  {
    hide IsRun;
    hide MergeAll;
    hide Apply;
    hide LogOf;
    hide LogRow;
    hide StepAllowed;
    hide OwnersOf;
    hide MovedOf;
    hide ComesBack;
    hide MovedIn;
    hide RejectedMove;
    hide GiveBackSome;
    if steps == [] {
      NoStepsYet(t);
      NothingReviewed(OwnersOf(t, kind), kind, |t.merges|, rejected, row);
    } else {
      LastStep(t, steps);
      var log, base, soFar := LogOf(t, steps), |t.merges|, MergeAll(t, Init(steps));
      RunMoves(t, Init(steps), kind, row);
      StepMoves(soFar, steps[|steps| - 1], kind, row);
      ReviewedRow(t, Init(steps), kind, rejected, row);
      GivenBackLast(OwnersOf(MergeAll(t, steps), kind), log, kind, base, rejected, row);
      GivenBackAt(OwnersOf(MergeAll(t, steps), kind), OwnersOf(soFar, kind), Init(log), kind, base, rejected, row);
      GivenBackAt(OwnersOf(soFar, kind), OwnersOf(soFar, kind), Init(log), kind, base, rejected, row);
      ComesBackSplit(log, kind, base, rejected, row);
      if RejectedMove(Init(log), kind, base, rejected, row) { RejectedIsMoved(Init(log), kind, base, rejected, row); }
      if MovedIn(Init(log), kind, row) && ComesBack(Init(log), kind, base, rejected, row) {
        ComesBackMoved(Init(log), kind, base, rejected, row);
      }
    }
  }

  lemma NothingReviewed(owners: Owners, kind: Kind, base: nat, rejected: set<nat>, row: Id)
    ensures ComesBack([], kind, base, rejected, row) && GiveBackSome(owners, [], kind, base, rejected) == owners
  {
  }

  /**
   * After a review of a run's merges in log order, a listing, alert or review
   * item belongs to its first product again exactly when the run never moved it,
   * or its first move was rejected and no later one was.
   */
  lemma ReviewReturnsExactly(t: Tables, steps: seq<Step>, queue: seq<nat>, judge: nat -> Option<bool>, newRows: seq<map<Id, Id>>,
                             kind: Kind, row: Id)
    requires IsRun(t, steps) && row in OwnersOf(t, kind) && Increasing(queue) && |newRows| == |MergeAll(t, steps).merges|
    requires InLog(queue, |t.merges|, |MergeAll(t, steps).merges|)
    ensures var back := OwnersOf(ReviewAll(MergeAll(t, steps), queue, judge, newRows), kind);
            row in back
            && (back[row] == OwnersOf(t, kind)[row]
                <==> ComesBack(LogOf(t, steps), kind, |t.merges|, Rejected(queue, judge), row))
  {
    hide IsRun;
    hide MergeAll;
    hide LogOf;
    hide ReviewAll;
    hide GiveBackSome;
    hide ComesBack;
    hide MovedIn;
    hide OwnersOf;
    RunMoves(t, steps, kind, row);
    RunLogs(t, steps);
    var after := MergeAll(t, steps);
    ReviewGivesBack(after, queue, judge, newRows, kind, Rejected(queue, judge), |t.merges|, |after.merges|);
    assert after.merges[|t.merges|..|after.merges|] == LogOf(t, steps);
    ReviewedRow(t, steps, kind, Rejected(queue, judge), row);
  }
}
