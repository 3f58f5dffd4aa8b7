/**
 * Watches in a run of merges undone newest first: exactly which runs get the
 * set of (user, product) watches back, and what becomes of the others.
 */
module CatalogueWatches {
  import opened CatalogueTables
  import opened CatalogueRuns
  import opened CatalogueChains

  /** The watch rows after undoing these merges, the last of them first; `newRows[i]` are the new rows for `merges[i]`. */
  ghost function UndoWatches(watches: map<Id, Watch>, merges: seq<Merge>, newRows: seq<map<Id, Id>>): map<Id, Watch>
    requires |newRows| == |merges|
    decreases |merges|
  {
    if merges == [] then watches
    else UndoWatches(UndoneWatches(watches, merges[|merges| - 1], newRows[|merges| - 1]), Init(merges), Init(newRows))
  }

  ghost function UndoneWatches(watches: map<Id, Watch>, merge: Merge, newRows: map<Id, Id>): map<Id, Watch> {
    RecreatedWatches(GiveBackWatches(watches, merge.movedWatches, merge.merged), merge.droppedWatchers, merge.merged, newRows)
  }

  lemma UndoneWatchesAt(t: Tables, n: nat, newRows: map<Id, Id>)
    requires n < |t.merges|
    ensures Undone(t, n, newRows).watches == UndoneWatches(t.watches, t.merges[n], newRows)
  {
  }

  lemma {:induction false} NewestFirstWatches(t: Tables, low: nat, high: nat, newRows: seq<map<Id, Id>>)
    requires low <= high <= |t.merges| && high <= |newRows|
    ensures UndoNewestFirst(t, low, high, newRows).watches == UndoWatches(t.watches, t.merges[low..high], newRows[low..high])
    decreases high - low
  {
    hide Undone;
    hide UndoneWatches;
    if low < high {
      var undone := Undone(t, high - 1, newRows[high - 1]);
      UndoneWatchesAt(t, high - 1, newRows[high - 1]);
      UndoneAt(t, high - 1, newRows[high - 1]);
      NewestFirstWatches(undone, low, high - 1, newRows);
      assert undone.merges[low..high - 1] == undone.merges[..high - 1][low..] == t.merges[low..high - 1];
      assert Init(t.merges[low..high]) == t.merges[low..high - 1];
      assert Init(newRows[low..high]) == newRows[low..high - 1];
    }
  }

  /** Some merge dropped this user's watch on this product. */
  ghost predicate DroppedIn(merges: seq<Merge>, user: Id, product: Id) {
    exists i :: 0 <= i < |merges| && user in merges[i].droppedWatchers && merges[i].merged == product
  }

  ghost predicate WatchMovedIn(merges: seq<Merge>, row: Id) {
    exists i :: 0 <= i < |merges| && row in merges[i].movedWatches
  }

  lemma DroppedSplit(merges: seq<Merge>, user: Id, product: Id)
    requires merges != []
    ensures var last := merges[|merges| - 1];
            DroppedIn(merges, user, product)
            <==> DroppedIn(Init(merges), user, product) || (user in last.droppedWatchers && last.merged == product)
  {
    assert forall i | 0 <= i < |merges| - 1 :: Init(merges)[i] == merges[i];
  }

  lemma WatchMovedSplit(merges: seq<Merge>, row: Id)
    requires merges != []
    ensures WatchMovedIn(merges, row) <==> WatchMovedIn(Init(merges), row) || row in merges[|merges| - 1].movedWatches
  {
    assert forall i | 0 <= i < |merges| - 1 :: Init(merges)[i] == merges[i];
  }

  // ----- what a run does to watch rows

  /** A run makes no watch rows, and one it has not moved is as before. */
  lemma {:induction false} UnmovedRow(t: Tables, steps: seq<Step>, row: Id)
    requires IsRun(t, steps) && row in MergeAll(t, steps).watches
    ensures row in t.watches && MergeAll(t, steps).watches[row].user == t.watches[row].user
    ensures !WatchMovedIn(LogOf(t, steps), row) ==> MergeAll(t, steps).watches[row] == t.watches[row]
  {
    hide IsRun;
    hide MergeAll;
    hide LogOf;
    hide WatchMovedIn;
    hide Watches;
    if steps == [] {
      NoStepsYet(t);
    } else {
      LogInit(t, steps);
      UnmovedRow(t, Init(steps), row);
      WatchMovedSplit(LogOf(t, steps), row);
    }
  }

  lemma LogInit(t: Tables, steps: seq<Step>)
    requires IsRun(t, steps) && steps != []
    ensures IsRun(t, Init(steps))
    ensures LogOf(t, steps) != [] && Init(LogOf(t, steps)) == LogOf(t, Init(steps))
    ensures var last, soFar, row := steps[|steps| - 1], MergeAll(t, Init(steps)), LogOf(t, steps)[|LogOf(t, steps)| - 1];
            && row.merged == last.merged
            && row.movedWatches == MovedRows(soFar.watches, last.kept, last.merged)
            && row.droppedWatchers == DroppedUsers(soFar.watches, last.kept, last.merged)
            && last.merged in soFar.products && last.kept in soFar.products && last.kept != last.merged
            && MergeAll(t, steps).watches == MoveWatches(soFar.watches, last.kept, last.merged)
            && MergeAll(t, steps).products.Keys == soFar.products.Keys - {last.merged}
  {
    hide IsRun;
    hide MergeAll;
    hide LogOf;
    hide MovedRows;
    hide DroppedUsers;
    hide MoveWatches;
    hide StepAllowed;
    LastStep(t, steps);
    ApplyRemoves(MergeAll(t, Init(steps)), steps[|steps| - 1]);
  }

  /** A row that is gone was dropped, on the product it was on then: its own, if it was never moved. */
  lemma {:induction false} GoneRow(t: Tables, steps: seq<Step>, row: Id) returns (product: Id)
    requires IsRun(t, steps) && row in t.watches && row !in MergeAll(t, steps).watches
    ensures DroppedIn(LogOf(t, steps), t.watches[row].user, product)
    ensures !WatchMovedIn(LogOf(t, steps), row) ==> product == t.watches[row].product
  {
    assert steps != [];
    LogInit(t, steps);
    hide IsRun;
    hide LogOf;
    hide MergeAll;
    var log, last, soFar := LogOf(t, steps), steps[|steps| - 1], MergeAll(t, Init(steps));
    WatchMovedSplit(log, row);
    if row !in soFar.watches {
      product := GoneRow(t, Init(steps), row);
    } else {
      UnmovedRow(t, Init(steps), row);
      product := last.merged;
    }
    DroppedSplit(log, t.watches[row].user, product);
  }

  /** What was dropped, or moved from, is a product that the run merges away. */
  lemma {:induction false} DroppedIsGone(t: Tables, steps: seq<Step>, user: Id, product: Id)
    requires IsRun(t, steps) && DroppedIn(LogOf(t, steps), user, product)
    ensures product in t.products && product !in MergeAll(t, steps).products
  {
    assert steps != [];
    LogInit(t, steps);
    RunMergesOnce(t, Init(steps));
    hide IsRun;
    hide LogOf;
    hide MergeAll;
    DroppedSplit(LogOf(t, steps), user, product);
    if DroppedIn(LogOf(t, Init(steps)), user, product) { DroppedIsGone(t, Init(steps), user, product); }
  }

  lemma {:induction false} HomeIsGone(t: Tables, steps: seq<Step>, row: Id)
    requires IsRun(t, steps) && WatchMovedIn(LogOf(t, steps), row)
    ensures row in t.watches && t.watches[row].product !in MergeAll(t, steps).products
  {
    assert steps != [];
    LogInit(t, steps);
    hide IsRun;
    hide LogOf;
    hide MergeAll;
    WatchMovedSplit(LogOf(t, steps), row);
    if WatchMovedIn(LogOf(t, Init(steps)), row) {
      HomeIsGone(t, Init(steps), row);
    } else {
      UnmovedRow(t, Init(steps), row);
    }
  }

  /** A dropped watch was a row that is gone, and that had moved or was on its own product. */
  lemma {:induction false} DroppedRow(t: Tables, steps: seq<Step>, user: Id, product: Id) returns (row: Id)
    requires IsRun(t, steps) && DroppedIn(LogOf(t, steps), user, product)
    ensures row in t.watches && row !in MergeAll(t, steps).watches
    ensures WatchMovedIn(LogOf(t, steps), row) || t.watches[row] == Watch(user, product)
  {
    assert steps != [];
    LogInit(t, steps);
    hide IsRun;
    hide LogOf;
    hide MergeAll;
    var last, soFar := steps[|steps| - 1], MergeAll(t, Init(steps));
    DroppedSplit(LogOf(t, steps), user, product);
    if DroppedIn(LogOf(t, Init(steps)), user, product) {
      row := DroppedRow(t, Init(steps), user, product);
    } else {
      row :| row in soFar.watches && soFar.watches[row] == Watch(user, last.merged) && Watches(soFar.watches, user, last.kept);
      UnmovedRow(t, Init(steps), row);
    }
    WatchMovedSplit(LogOf(t, steps), row);
  }

  /** The user of a moved row is not among those who lost a watch on its first product. */
  lemma {:induction false} MovedIsNotDropped(t: Tables, steps: seq<Step>, row: Id)
    requires IsRun(t, steps) && OneWatchEach(t.watches) && WatchMovedIn(LogOf(t, steps), row)
    ensures row in t.watches && !DroppedIn(LogOf(t, steps), t.watches[row].user, t.watches[row].product)
  {
    assert steps != [];
    LogInit(t, steps);
    HomeIsGone(t, steps, row);
    hide IsRun;
    hide LogOf;
    hide MergeAll;
    var last, soFar := steps[|steps| - 1], MergeAll(t, Init(steps));
    var user, home := t.watches[row].user, t.watches[row].product;
    WatchMovedSplit(LogOf(t, steps), row);
    DroppedSplit(LogOf(t, steps), user, home);
    if WatchMovedIn(LogOf(t, Init(steps)), row) {
      MovedIsNotDropped(t, Init(steps), row);
      HomeIsGone(t, Init(steps), row);
    } else {
      UnmovedRow(t, Init(steps), row);
      assert home == last.merged;
      if DroppedIn(LogOf(t, Init(steps)), user, home) { DroppedIsGone(t, Init(steps), user, home); }
    }
  }

  /** A row is moved only to a product that its user did not watch before the run. */
  lemma {:induction false} MovedSomewhereNew(t: Tables, steps: seq<Step>, row: Id)
    requires IsRun(t, steps) && WatchMovedIn(LogOf(t, steps), row) && row in MergeAll(t, steps).watches
    ensures !Watches(t.watches, MergeAll(t, steps).watches[row].user, MergeAll(t, steps).watches[row].product)
  {
    assert steps != [];
    LogInit(t, steps);
    hide IsRun;
    hide LogOf;
    hide MergeAll;
    var last, soFar := steps[|steps| - 1], MergeAll(t, Init(steps));
    WatchMovedSplit(LogOf(t, steps), row);
    if row in MovedRows(soFar.watches, last.kept, last.merged) {
      var user := soFar.watches[row].user;
      assert !Watches(soFar.watches, user, last.kept);
      if Watches(t.watches, user, last.kept) {
        var other :| other in t.watches && t.watches[other] == Watch(user, last.kept);
        StaysOnKeeper(t, Init(steps), other);
      }
    } else {
      MovedSomewhereNew(t, Init(steps), row);
    }
  }

  /** While its product is there, a watch row stays where it is. */
  lemma StaysOnKeeper(t: Tables, steps: seq<Step>, row: Id)
    requires IsRun(t, steps) && row in t.watches && t.watches[row].product in MergeAll(t, steps).products
    ensures row in MergeAll(t, steps).watches && MergeAll(t, steps).watches[row] == t.watches[row]
  {
    hide IsRun;
    hide LogOf;
    hide MergeAll;
    if WatchMovedIn(LogOf(t, steps), row) { HomeIsGone(t, steps, row); }
    if row !in MergeAll(t, steps).watches {
      var product := GoneRow(t, steps, row);
      DroppedIsGone(t, steps, t.watches[row].user, product);
    }
    UnmovedRow(t, steps, row);
  }

  /** A moved row that is gone was dropped on a product that its user did not watch before the run. */
  lemma {:induction false} DroppedElsewhere(t: Tables, steps: seq<Step>, row: Id) returns (product: Id)
    requires IsRun(t, steps) && WatchMovedIn(LogOf(t, steps), row) && row !in MergeAll(t, steps).watches
    ensures row in t.watches && DroppedIn(LogOf(t, steps), t.watches[row].user, product)
    ensures !Watches(t.watches, t.watches[row].user, product)
  {
    assert steps != [];
    LogInit(t, steps);
    HomeIsGone(t, steps, row);
    hide IsRun;
    hide LogOf;
    hide MergeAll;
    var last, soFar := steps[|steps| - 1], MergeAll(t, Init(steps));
    WatchMovedSplit(LogOf(t, steps), row);
    if row in soFar.watches {
      UnmovedRow(t, Init(steps), row);
      MovedSomewhereNew(t, Init(steps), row);
      product := last.merged;
    } else {
      product := DroppedElsewhere(t, Init(steps), row);
    }
    DroppedSplit(LogOf(t, steps), t.watches[row].user, product);
  }

  // ----- what undoing does to watch rows

  /** New row ids for each merge: one per dropped user, none used before the run, and none given twice. */
  ghost predicate FreshRows(before: map<Id, Watch>, merges: seq<Merge>, newRows: seq<map<Id, Id>>) {
    && |newRows| == |merges|
    && (forall i | 0 <= i < |merges| :: OneRowEach(merges[i].droppedWatchers, newRows[i]) && newRows[i].Keys !! before.Keys)
    && (forall i, j | 0 <= i < j < |merges| :: newRows[i].Keys !! newRows[j].Keys)
  }

  lemma FreshInit(before: map<Id, Watch>, merges: seq<Merge>, newRows: seq<map<Id, Id>>)
    requires merges != [] && FreshRows(before, merges, newRows)
    ensures FreshRows(before, Init(merges), Init(newRows))
  {
    assert forall i | 0 <= i < |merges| - 1 :: Init(merges)[i] == merges[i] && Init(newRows)[i] == newRows[i];
  }

  /** A row of before the run that is still among `watches` stood there for this watch. */
  ghost predicate OldRow(before: map<Id, Watch>, watches: map<Id, Watch>, user: Id, product: Id) {
    exists row <- watches :: row in before && before[row] == Watch(user, product)
  }

  /** A recreated row stands for this watch. */
  ghost predicate NewRow(before: map<Id, Watch>, watches: map<Id, Watch>, user: Id, product: Id) {
    exists row <- watches :: row !in before && watches[row] == Watch(user, product)
  }

  /** What undoing has reached: old rows are where `now` has them, and the ids still to come are unused. */
  ghost predicate Reached(before: map<Id, Watch>, now: map<Id, Watch>, watches: map<Id, Watch>, newRows: seq<map<Id, Id>>) {
    && (forall row <- watches | row in before :: row in now && watches[row] == now[row])
    && (forall i | 0 <= i < |newRows| :: newRows[i].Keys !! watches.Keys)
  }

  /** One undo takes the old rows back over its merge. */
  lemma OneUndoReaches(before: map<Id, Watch>, soFar: map<Id, Watch>, watches: map<Id, Watch>, kept: Id, merge: Merge,
                       newRows: seq<map<Id, Id>>)
    requires newRows != [] && newRows[|newRows| - 1].Keys !! before.Keys
    requires forall i | 0 <= i < |newRows| - 1 :: newRows[i].Keys !! newRows[|newRows| - 1].Keys
    requires merge.movedWatches == MovedRows(soFar, kept, merge.merged)
    requires Reached(before, MoveWatches(soFar, kept, merge.merged), watches, newRows)
    ensures Reached(before, soFar, UndoneWatches(watches, merge, newRows[|newRows| - 1]), Init(newRows))
  {
    var undone := UndoneWatches(watches, merge, newRows[|newRows| - 1]);
    assert undone.Keys <= watches.Keys + newRows[|newRows| - 1].Keys;
    forall row <- undone | row in before ensures row in soFar && undone[row] == soFar[row] {
      assert row in watches && row in MoveWatches(soFar, kept, merge.merged);
    }
  }

  lemma OneUndoOld(before: map<Id, Watch>, watches: map<Id, Watch>, merge: Merge, newRows: map<Id, Id>, user: Id, product: Id)
    requires newRows.Keys !! before.Keys
    ensures OldRow(before, UndoneWatches(watches, merge, newRows), user, product) <==> OldRow(before, watches, user, product)
  {
    var undone := UndoneWatches(watches, merge, newRows);
    assert forall row <- before :: row in undone <==> row in watches;
  }

  /** And recreates what its merge dropped. */
  lemma OneUndoNew(before: map<Id, Watch>, soFar: map<Id, Watch>, watches: map<Id, Watch>, kept: Id, merge: Merge, newRows: map<Id, Id>,
                   user: Id, product: Id)
    requires soFar.Keys <= before.Keys && newRows.Keys !! before.Keys && newRows.Keys !! watches.Keys
    requires merge.movedWatches == MovedRows(soFar, kept, merge.merged)
    requires merge.droppedWatchers == DroppedUsers(soFar, kept, merge.merged)
    requires OneRowEach(merge.droppedWatchers, newRows)
    requires forall row <- watches | row in before ::
               row in MoveWatches(soFar, kept, merge.merged) && watches[row] == MoveWatches(soFar, kept, merge.merged)[row]
    ensures NewRow(before, UndoneWatches(watches, merge, newRows), user, product)
            <==> NewRow(before, watches, user, product) || (user in merge.droppedWatchers && product == merge.merged)
  {
    var given := GiveBackWatches(watches, merge.movedWatches, merge.merged);
    var undone := UndoneWatches(watches, merge, newRows);
    assert forall row <- watches | row !in before :: given[row] == watches[row] && undone[row] == watches[row];
    if NewRow(before, watches, user, product) {
      var row :| row in watches && row !in before && watches[row] == Watch(user, product);
      assert row in undone && undone[row] == watches[row];
    }
    if user in merge.droppedWatchers && product == merge.merged {
      if Watches(given, user, product) {
        var row :| row in given && given[row] == Watch(user, product);
        assert row !in before;
      } else {
        var row :| row in newRows && newRows[row] == user;
        assert undone[row] == Watch(user, product);
      }
    }
  }

  /**
   * The watches after undoing a run, newest first, from any tables on the way:
   * what the old rows stood for, what the rows recreated so far stand for, and
   * what the run dropped.
   */
  lemma {:induction false} UndoneWatch(t: Tables, steps: seq<Step>, watches: map<Id, Watch>, newRows: seq<map<Id, Id>>,
                                       user: Id, product: Id)
    requires IsRun(t, steps) && FreshRows(t.watches, LogOf(t, steps), newRows)
    requires Reached(t.watches, MergeAll(t, steps).watches, watches, newRows)
    ensures Watches(UndoWatches(watches, LogOf(t, steps), newRows), user, product)
            <==> OldRow(t.watches, watches, user, product) || NewRow(t.watches, watches, user, product)
                 || DroppedIn(LogOf(t, steps), user, product)
    decreases |steps|
  {
    if steps == [] {
      assert forall row <- watches | row in t.watches :: watches[row] == t.watches[row];
    } else {
      LogInit(t, steps);
      RunWatches(t, Init(steps));
      hide IsRun;
      hide LogOf;
      hide MergeAll;
      hide MoveWatches;
      hide MovedRows;
      hide DroppedUsers;
      hide UndoneWatches;
      hide OldRow;
      hide NewRow;
      hide OneRowEach;
      var log, soFar, n := LogOf(t, steps), MergeAll(t, Init(steps)), |newRows| - 1;
      var merge, kept := log[n], steps[|steps| - 1].kept;
      var undone := UndoneWatches(watches, merge, newRows[n]);
      FreshInit(t.watches, log, newRows);
      OneUndoReaches(t.watches, soFar.watches, watches, kept, merge, newRows);
      OneUndoOld(t.watches, watches, merge, newRows[n], user, product);
      OneUndoNew(t.watches, soFar.watches, watches, kept, merge, newRows[n], user, product);
      UndoneWatch(t, Init(steps), undone, Init(newRows), user, product);
      DroppedSplit(log, user, product);
    }
  }

  /** After undoing a whole run: the watches of the rows that the run left, and those it dropped. */
  lemma WatchesBack(t: Tables, steps: seq<Step>, newRows: seq<map<Id, Id>>, user: Id, product: Id)
    requires IsRun(t, steps) && FreshRows(t.watches, LogOf(t, steps), newRows)
    ensures Watches(UndoWatches(MergeAll(t, steps).watches, LogOf(t, steps), newRows), user, product)
            <==> OldRow(t.watches, MergeAll(t, steps).watches, user, product) || DroppedIn(LogOf(t, steps), user, product)
  {
    RunWatches(t, steps);
    hide IsRun;
    hide LogOf;
    hide MergeAll;
    hide OneRowEach;
    UndoneWatch(t, steps, MergeAll(t, steps).watches, newRows, user, product);
  }

  /** Every watch row that the run moved is still there after it. */
  ghost predicate NoMovedRowDropped(t: Tables, steps: seq<Step>)
    requires IsRun(t, steps)
  {
    forall row :: WatchMovedIn(LogOf(t, steps), row) ==> row in MergeAll(t, steps).watches
  }

  /** A row moved and then dropped is not restored: its user instead watches a product not watched before the run. */
  lemma WatchMisplacedInChain(t: Tables, steps: seq<Step>, newRows: seq<map<Id, Id>>, row: Id) returns (product: Id)
    requires IsRun(t, steps) && OneWatchEach(t.watches) && FreshRows(t.watches, LogOf(t, steps), newRows)
    requires WatchMovedIn(LogOf(t, steps), row) && row !in MergeAll(t, steps).watches
    ensures row in t.watches
    ensures var back := UndoWatches(MergeAll(t, steps).watches, LogOf(t, steps), newRows);
            && !Watches(back, t.watches[row].user, t.watches[row].product)
            && Watches(back, t.watches[row].user, product) && !Watches(t.watches, t.watches[row].user, product)
  {
    hide IsRun;
    hide LogOf;
    hide MergeAll;
    hide FreshRows;
    MovedIsNotDropped(t, steps, row);
    var user, home := t.watches[row].user, t.watches[row].product;
    WatchesBack(t, steps, newRows, user, home);
    product := DroppedElsewhere(t, steps, row);
    WatchesBack(t, steps, newRows, user, product);
  }

  /** With no moved row dropped, each watch is back exactly if it was there. */
  lemma WatchRestored(t: Tables, steps: seq<Step>, newRows: seq<map<Id, Id>>, user: Id, product: Id)
    requires IsRun(t, steps) && FreshRows(t.watches, LogOf(t, steps), newRows) && NoMovedRowDropped(t, steps)
    ensures Watches(UndoWatches(MergeAll(t, steps).watches, LogOf(t, steps), newRows), user, product)
            <==> Watches(t.watches, user, product)
  {
    WatchesBack(t, steps, newRows, user, product);
    if Watches(t.watches, user, product) {
      var row :| row in t.watches && t.watches[row] == Watch(user, product);
      if row !in MergeAll(t, steps).watches {
        var dropped := GoneRow(t, steps, row);
      }
    }
    if DroppedIn(LogOf(t, steps), user, product) {
      var row := DroppedRow(t, steps, user, product);
    }
  }

  lemma SameValues(a: map<Id, Watch>, b: map<Id, Watch>)
    ensures a.Values == b.Values <==> forall user, product :: Watches(a, user, product) <==> Watches(b, user, product)
  {
    assert forall user, product :: Watches(a, user, product) <==> Watch(user, product) in a.Values;
    assert forall user, product :: Watches(b, user, product) <==> Watch(user, product) in b.Values;
    if forall user, product :: Watches(a, user, product) <==> Watches(b, user, product) {
      forall watch: Watch ensures watch in a.Values <==> watch in b.Values {
        assert watch == Watch(watch.user, watch.product);
        assert Watches(a, watch.user, watch.product) <==> Watches(b, watch.user, watch.product);
      }
    }
  }

  /**
   * Undone newest first, a run gets the set of (user, product) watches back
   * exactly when none of the rows its merges moved was dropped by a later one:
   * the log and the rows tell before the undo.
   */
  lemma NewestFirstWatchesExactly(t: Tables, steps: seq<Step>, newRows: seq<map<Id, Id>>)
    requires IsRun(t, steps) && OneWatchEach(t.watches) && |MergeAll(t, steps).merges| <= |newRows|
    requires |t.merges| <= |MergeAll(t, steps).merges|
    requires FreshRows(t.watches, LogOf(t, steps), newRows[|t.merges|..|MergeAll(t, steps).merges|])
    ensures UndoNewestFirst(MergeAll(t, steps), |t.merges|, |MergeAll(t, steps).merges|, newRows).watches.Values == t.watches.Values
            <==> NoMovedRowDropped(t, steps)
  {
    hide IsRun;
    hide LogOf;
    hide MergeAll;
    hide FreshRows;
    hide UndoNewestFirst;
    hide UndoWatches;
    hide WatchMovedIn;
    hide Watches;
    hide OneWatchEach;
    var after, log := MergeAll(t, steps), LogOf(t, steps);
    var low, high := |t.merges|, |after.merges|;
    RunLogs(t, steps);
    NewestFirstWatches(after, low, high, newRows);
    assert after.merges[low..high] == log;
    var back := UndoWatches(after.watches, log, newRows[low..high]);
    SameValues(back, t.watches);
    if NoMovedRowDropped(t, steps) {
      forall user, product ensures Watches(back, user, product) <==> Watches(t.watches, user, product) {
        WatchRestored(t, steps, newRows[low..high], user, product);
      }
    } else {
      var row :| WatchMovedIn(log, row) && row !in after.watches;
      var product := WatchMisplacedInChain(t, steps, newRows[low..high], row);
      WatchedBefore(t.watches, row);
    }
  }

  lemma WatchedBefore(watches: map<Id, Watch>, row: Id)
    requires row in watches
    ensures Watches(watches, watches[row].user, watches[row].product)
  {
  }
}
