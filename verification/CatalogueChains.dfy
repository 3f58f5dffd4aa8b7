/** Undoing a whole run of merges, newest first and oldest first. */
module CatalogueChains {
  import opened Options
  import opened CatalogueTables
  import opened CatalogueUndo
  import opened CatalogueRuns

  /** Undoes the merges logged at positions from `low` up to `high`, the last of them first; `newRows` gives each its new row ids. */
  ghost function UndoNewestFirst(t: Tables, low: nat, high: nat, newRows: seq<map<Id, Id>>): Tables
    requires low <= high <= |t.merges| && high <= |newRows|
    decreases high - low
  {
    if low == high then t else UndoNewestFirst(Undone(t, high - 1, newRows[high - 1]), low, high - 1, newRows)
  }

  /** Undoes the same merges, the first of them first, as the review of unreviewed merges does. */
  ghost function UndoOldestFirst(t: Tables, low: nat, high: nat, newRows: seq<map<Id, Id>>): Tables
    requires low <= high <= |t.merges| && high <= |newRows|
    decreases high - low
  {
    if low == high then t else UndoOldestFirst(Undone(t, low, newRows[low]), low + 1, high, newRows)
  }

  /** Every row belongs to the same product in both, and the same products exist. */
  ghost predicate SameOwnership(s: Tables, t: Tables) {
    s.listings == t.listings && s.alerts == t.alerts && s.reviews == t.reviews && s.products.Keys == t.products.Keys
  }

  /** Alike in ownership and in the first `n` logged merges: undoing any of these keeps them alike. */
  ghost predicate Alike(s: Tables, t: Tables, n: nat) {
    && SameOwnership(s, t)
    && n <= |s.merges| && n <= |t.merges|
    && forall i | 0 <= i < n :: s.merges[i] == t.merges[i]
  }

  lemma {:induction false} UndoKeepsAlike(s: Tables, t: Tables, low: nat, high: nat, newRows: seq<map<Id, Id>>)
    requires low <= high && Alike(s, t, high) && high <= |newRows|
    ensures Alike(UndoNewestFirst(s, low, high, newRows), UndoNewestFirst(t, low, high, newRows), low)
    decreases high - low
  {
    if low < high {
      UndoKeepsAlike(Undone(s, high - 1, newRows[high - 1]), Undone(t, high - 1, newRows[high - 1]), low, high - 1, newRows);
    }
  }

  /** Undoing the latest merge of a run leaves tables like those before it. */
  lemma UndoLatest(t: Tables, step: Step, newRows: map<Id, Id>)
    requires StepAllowed(t, step)
    ensures Alike(Undone(Apply(t, step), |t.merges|, newRows), t, |t.merges|)
  {
    GiveBackRestores(t.listings, step.kept, step.merged);
    GiveBackRestores(t.alerts, step.kept, step.merged);
    GiveBackRestores(t.reviews, step.kept, step.merged);
  }

  lemma {:induction false} RunLength(t: Tables, steps: seq<Step>)
    requires IsRun(t, steps)
    ensures |MergeAll(t, steps).merges| == |t.merges| + |steps|
  {
    if steps != [] { RunLength(t, Init(steps)); }
  }

  /**
   * A run of merges undone newest first gives every listing, alert and review
   * item back its product and restores the set of products.
   */
  lemma {:induction false} NewestFirstRestores(t: Tables, steps: seq<Step>, newRows: seq<map<Id, Id>>)
    requires IsRun(t, steps)
    requires |t.merges| <= |MergeAll(t, steps).merges| <= |newRows|
    ensures SameOwnership(UndoNewestFirst(MergeAll(t, steps), |t.merges|, |MergeAll(t, steps).merges|, newRows), t)
  {
    hide StepAllowed;
    hide Undone;
    hide Merged;
    RunLength(t, steps);
    if steps != [] {
      var soFar, after := MergeAll(t, Init(steps)), MergeAll(t, steps);
      RunLength(t, Init(steps));
      var high := |soFar.merges|;
      UndoLatest(soFar, steps[|steps| - 1], newRows[high]);
      UndoKeepsAlike(Undone(after, high, newRows[high]), soFar, |t.merges|, high, newRows);
      NewestFirstRestores(t, Init(steps), newRows);
    }
  }

  // ----- the log of a run

  /** The log row of one step. */
  ghost function LogRow(t: Tables, step: Step): Merge {
    MergeRow(t, step.kept, step.merged, step.mergeLoaded, step.decidedBy)
  }

  /** The log rows of a run. */
  ghost function LogOf(t: Tables, steps: seq<Step>): seq<Merge>
    requires IsRun(t, steps)
  {
    if steps == [] then []
    else LogOf(t, Init(steps)) + [LogRow(MergeAll(t, Init(steps)), steps[|steps| - 1])]
  }

  lemma {:induction false} RunLogs(t: Tables, steps: seq<Step>)
    requires IsRun(t, steps)
    ensures MergeAll(t, steps).merges == t.merges + LogOf(t, steps)
  {
    if steps != [] { RunLogs(t, Init(steps)); }
  }

  /** The last step of a run. */
  lemma LastStep(t: Tables, steps: seq<Step>)
    requires IsRun(t, steps) && steps != []
    ensures IsRun(t, Init(steps)) && StepAllowed(MergeAll(t, Init(steps)), steps[|steps| - 1])
    ensures steps[|steps| - 1].kept in MergeAll(t, Init(steps)).products && steps[|steps| - 1].kept != steps[|steps| - 1].merged
    ensures MergeAll(t, steps) == Apply(MergeAll(t, Init(steps)), steps[|steps| - 1])
    ensures LogOf(t, steps) != [] && Init(LogOf(t, steps)) == LogOf(t, Init(steps))
    ensures LogOf(t, steps)[|LogOf(t, steps)| - 1] == LogRow(MergeAll(t, Init(steps)), steps[|steps| - 1])
  {
    hide Merged;
    hide MergeRow;
    hide LoadedFrom;
  }

  /** What one merge does to one row, and logs of it. */
  lemma StepMoves(t: Tables, step: Step, kind: Kind, row: Id)
    requires StepAllowed(t, step) && row in OwnersOf(t, kind)
    ensures LogRow(t, step).merged == step.merged && step.merged in t.products && step.kept in t.products
    ensures Apply(t, step).products.Keys == t.products.Keys - {step.merged}
    ensures row in MovedOf(LogRow(t, step), kind) <==> OwnersOf(t, kind)[row] == Some(step.merged)
    ensures row in OwnersOf(Apply(t, step), kind)
    ensures OwnersOf(Apply(t, step), kind)[row]
            == if row in MovedOf(LogRow(t, step), kind) then Some(step.kept) else OwnersOf(t, kind)[row]
  {
  }

  /** These merges moved the row at least once. */
  ghost predicate MovedIn(merges: seq<Merge>, kind: Kind, row: Id) {
    exists i :: 0 <= i < |merges| && row in MovedOf(merges[i], kind)
  }

  ghost predicate MovedTwice(merges: seq<Merge>, kind: Kind, row: Id) {
    exists i, j :: 0 <= i < j < |merges| && row in MovedOf(merges[i], kind) && row in MovedOf(merges[j], kind)
  }

  lemma MovedSplit(merges: seq<Merge>, kind: Kind, row: Id)
    requires merges != []
    ensures var moved := row in MovedOf(merges[|merges| - 1], kind);
            && (MovedIn(merges, kind, row) <==> MovedIn(Init(merges), kind, row) || moved)
            && (MovedTwice(merges, kind, row)
                <==> MovedTwice(Init(merges), kind, row) || (MovedIn(Init(merges), kind, row) && moved))
  {
    hide MovedOf;
    var n := |merges| - 1;
    assert forall i | 0 <= i < n :: Init(merges)[i] == merges[i];
  }

  lemma TwiceIsMoved(merges: seq<Merge>, kind: Kind, row: Id)
    ensures MovedTwice(merges, kind, row) ==> MovedIn(merges, kind, row)
  {
  }

  lemma NothingMoved(kind: Kind, row: Id)
    ensures !MovedIn([], kind, row) && !MovedTwice([], kind, row)
  {
  }

  lemma NoStepsYet(t: Tables)
    ensures IsRun(t, []) && MergeAll(t, []) == t && LogOf(t, []) == []
  {
  }

  /** What the run did to one row: nothing if it never moved it, else its first owner is gone. */
  lemma {:induction false} RunMoves(t: Tables, steps: seq<Step>, kind: Kind, row: Id)
    requires IsRun(t, steps) && row in OwnersOf(t, kind)
    ensures row in OwnersOf(MergeAll(t, steps), kind)
    ensures !MovedIn(LogOf(t, steps), kind, row) ==> OwnersOf(MergeAll(t, steps), kind)[row] == OwnersOf(t, kind)[row]
    ensures MovedIn(LogOf(t, steps), kind, row) ==>
              OwnersOf(t, kind)[row].Some? && OwnersOf(t, kind)[row].value !in MergeAll(t, steps).products
  {
    hide IsRun;
    hide MergeAll;
    hide Apply;
    hide LogOf;
    hide LogRow;
    hide MovedIn;
    hide OwnersOf;
    hide MovedOf;
    hide StepAllowed;
    if steps == [] {
      NoStepsYet(t);
      NothingMoved(kind, row);
    } else {
      LastStep(t, steps);
      RunMoves(t, Init(steps), kind, row);
      StepMoves(MergeAll(t, Init(steps)), steps[|steps| - 1], kind, row);
      MovedSplit(LogOf(t, steps), kind, row);
    }
  }

  // ----- oldest first

  /** The rows' owners after giving back what each merge moved, the first merge first. */
  ghost function GiveBackAll(owners: Owners, merges: seq<Merge>, kind: Kind): (after: Owners)
    ensures after.Keys == owners.Keys
  {
    if merges == [] then owners
    else GiveBack(GiveBackAll(owners, Init(merges), kind), MovedOf(merges[|merges| - 1], kind), merges[|merges| - 1].merged)
  }

  lemma {:induction false} GiveBackFirst(owners: Owners, merges: seq<Merge>, kind: Kind)
    requires merges != []
    ensures GiveBackAll(owners, merges, kind)
            == GiveBackAll(GiveBack(owners, MovedOf(merges[0], kind), merges[0].merged), merges[1..], kind)
  {
    hide MovedOf;
    hide GiveBack;
    if |merges| == 1 {
      assert Init(merges) == [] && merges[1..] == [];
    } else {
      GiveBackFirst(owners, Init(merges), kind);
      assert Init(merges)[1..] == Init(merges[1..]);
    }
  }

  lemma UndoneOwners(t: Tables, n: nat, newRows: map<Id, Id>, kind: Kind)
    requires n < |t.merges|
    ensures OwnersOf(Undone(t, n, newRows), kind) == GiveBack(OwnersOf(t, kind), MovedOf(t.merges[n], kind), t.merges[n].merged)
    ensures |Undone(t, n, newRows).merges| == |t.merges| && Undone(t, n, newRows).merges[n + 1..] == t.merges[n + 1..]
  {
  }

  lemma {:induction false} OldestFirstOwners(t: Tables, low: nat, high: nat, newRows: seq<map<Id, Id>>, kind: Kind)
    requires low <= high <= |t.merges| && high <= |newRows|
    ensures OwnersOf(UndoOldestFirst(t, low, high, newRows), kind) == GiveBackAll(OwnersOf(t, kind), t.merges[low..high], kind)
    decreases high - low
  {
    hide Undone;
    hide GiveBack;
    hide MovedOf;
    hide OwnersOf;
    if low < high {
      var undone := Undone(t, low, newRows[low]);
      UndoneOwners(t, low, newRows[low], kind);
      OldestFirstOwners(undone, low + 1, high, newRows, kind);
      assert undone.merges[low + 1..high] == undone.merges[low + 1..][..high - low - 1] == t.merges[low + 1..high];
      GiveBackFirst(OwnersOf(t, kind), t.merges[low..high], kind);
      assert t.merges[low..high][1..] == t.merges[low + 1..high];
    }
  }

  /** What a row is given back to does not depend on the other rows. */
  lemma {:induction false} GiveBackAt(a: Owners, b: Owners, merges: seq<Merge>, kind: Kind, row: Id)
    requires row in a && row in b && a[row] == b[row]
    ensures GiveBackAll(a, merges, kind)[row] == GiveBackAll(b, merges, kind)[row]
  {
    if merges != [] { GiveBackAt(a, b, Init(merges), kind, row); }
  }

  lemma GiveBackLast(owners: Owners, merges: seq<Merge>, kind: Kind, row: Id)
    requires merges != [] && row in owners
    ensures var last := merges[|merges| - 1];
            GiveBackAll(owners, merges, kind)[row]
            == if row in MovedOf(last, kind) then Some(last.merged) else GiveBackAll(owners, Init(merges), kind)[row]
  {
  }

  lemma NothingGivenBack(owners: Owners, kind: Kind)
    ensures GiveBackAll(owners, [], kind) == owners
  {
  }

  /** Giving back oldest first restores a row exactly when the run moved it at most once. */
  lemma {:induction false} OldestFirstRow(t: Tables, steps: seq<Step>, kind: Kind, row: Id)
    requires IsRun(t, steps) && row in OwnersOf(t, kind) && row in OwnersOf(MergeAll(t, steps), kind)
    ensures GiveBackAll(OwnersOf(MergeAll(t, steps), kind), LogOf(t, steps), kind)[row] == OwnersOf(t, kind)[row]
            <==> !MovedTwice(LogOf(t, steps), kind, row)
  {
    hide IsRun;
    hide MergeAll;
    hide Apply;
    hide LogOf;
    hide LogRow;
    hide MovedIn;
    hide MovedTwice;
    hide OwnersOf;
    hide MovedOf;
    hide StepAllowed;
    hide GiveBackAll;
    if steps == [] {
      NoStepsYet(t);
      NothingMoved(kind, row);
      NothingGivenBack(OwnersOf(t, kind), kind);
    } else {
      LastStep(t, steps);
      var soFar, log := MergeAll(t, Init(steps)), LogOf(t, steps);
      RunMoves(t, Init(steps), kind, row);
      StepMoves(soFar, steps[|steps| - 1], kind, row);
      OldestFirstRow(t, Init(steps), kind, row);
      MovedSplit(log, kind, row);
      TwiceIsMoved(Init(log), kind, row);
      GiveBackLast(OwnersOf(MergeAll(t, steps), kind), log, kind, row);
      if row !in MovedOf(log[|log| - 1], kind) {
        GiveBackAt(OwnersOf(MergeAll(t, steps), kind), OwnersOf(soFar, kind), Init(log), kind, row);
      }
    }
  }

  /**
   * Undone oldest first, as the review of unreviewed merges goes about it, a run
   * gets its listings back exactly when no listing was moved by two of its
   * merges, and its alerts and review items likewise.
   */
  lemma OldestFirstRestoresExactly(t: Tables, steps: seq<Step>, newRows: seq<map<Id, Id>>, kind: Kind)
    requires IsRun(t, steps) && |t.merges| <= |MergeAll(t, steps).merges| <= |newRows|
    ensures OwnersOf(UndoOldestFirst(MergeAll(t, steps), |t.merges|, |MergeAll(t, steps).merges|, newRows), kind) == OwnersOf(t, kind)
            <==> forall row <- OwnersOf(t, kind) :: !MovedTwice(LogOf(t, steps), kind, row)
  {
    hide IsRun;
    hide MergeAll;
    hide LogOf;
    hide MovedTwice;
    hide MovedIn;
    hide UndoOldestFirst;
    hide GiveBackAll;
    hide OwnersOf;
    var after, owners := MergeAll(t, steps), OwnersOf(t, kind);
    RunLogs(t, steps);
    OldestFirstOwners(after, |t.merges|, |after.merges|, newRows, kind);
    assert after.merges[|t.merges|..|after.merges|] == LogOf(t, steps);
    var back := GiveBackAll(OwnersOf(after, kind), LogOf(t, steps), kind);
    RunKeys(t, steps, kind);
    forall row <- owners ensures row in back && (back[row] == owners[row] <==> !MovedTwice(LogOf(t, steps), kind, row)) {
      OldestFirstRow(t, steps, kind, row);
    }
    if forall row <- owners :: back[row] == owners[row] { assert back == owners; }
  }

  lemma RunKeys(t: Tables, steps: seq<Step>, kind: Kind)
    requires IsRun(t, steps)
    ensures OwnersOf(MergeAll(t, steps), kind).Keys == OwnersOf(t, kind).Keys
  {
    hide IsRun;
    hide MergeAll;
    RunOwners(t, steps);
  }

  /** In a chain, a row undone oldest first ends at the product in the middle, not at its own. */
  lemma OldestFirstMisplaces(t: Tables, steps: seq<Step>, newRows: seq<map<Id, Id>>, kind: Kind, row: Id)
    requires IsRun(t, steps) && |steps| == 2 && steps[1].merged == steps[0].kept
    requires row in OwnersOf(t, kind) && OwnersOf(t, kind)[row] == Some(steps[0].merged)
    requires |MergeAll(t, steps).merges| == |t.merges| + 2 <= |newRows|
    ensures var back := OwnersOf(UndoOldestFirst(MergeAll(t, steps), |t.merges|, |t.merges| + 2, newRows), kind);
            row in back && back[row] == Some(steps[0].kept) != OwnersOf(t, kind)[row]
  {
    hide IsRun;
    hide MergeAll;
    hide Apply;
    hide LogOf;
    hide LogRow;
    hide UndoOldestFirst;
    hide GiveBackAll;
    hide OwnersOf;
    hide MovedOf;
    hide StepAllowed;
    var after, n, one := MergeAll(t, steps), |t.merges|, Init(steps);
    RunLogs(t, steps);
    OldestFirstOwners(after, n, n + 2, newRows, kind);
    assert after.merges[n..n + 2] == LogOf(t, steps);
    LastStep(t, steps);
    LastStep(t, one);
    NoStepsYet(t);
    assert Init(one) == [];
    StepMoves(t, steps[0], kind, row);
    StepMoves(MergeAll(t, one), steps[1], kind, row);
    GiveBackLast(OwnersOf(after, kind), LogOf(t, steps), kind, row);
  }

  // ----- price history, newest first

  /** The history after giving back what each merge moved, the last merge first. */
  ghost function GiveBackHistoryAll(history: map<Id, History>, merges: seq<Merge>): (after: map<Id, History>)
    ensures after.Keys == history.Keys
  {
    if merges == [] then history
    else
      var last := merges[|merges| - 1];
      GiveBackHistoryAll(GiveBackHistory(history, last.movedListings, last.merged), Init(merges))
  }

  lemma UndoneAt(t: Tables, n: nat, newRows: map<Id, Id>)
    requires n < |t.merges|
    ensures Undone(t, n, newRows).history == GiveBackHistory(t.history, t.merges[n].movedListings, t.merges[n].merged)
    ensures |Undone(t, n, newRows).merges| == |t.merges| && Undone(t, n, newRows).merges[..n] == t.merges[..n]
  {
  }

  lemma {:induction false} NewestFirstHistory(t: Tables, low: nat, high: nat, newRows: seq<map<Id, Id>>)
    requires low <= high <= |t.merges| && high <= |newRows|
    ensures UndoNewestFirst(t, low, high, newRows).history == GiveBackHistoryAll(t.history, t.merges[low..high])
    decreases high - low
  {
    hide Undone;
    hide GiveBackHistory;
    if low < high {
      var undone := Undone(t, high - 1, newRows[high - 1]);
      UndoneAt(t, high - 1, newRows[high - 1]);
      NewestFirstHistory(undone, low, high - 1, newRows);
      assert undone.merges[low..high - 1] == undone.merges[..high - 1][low..] == t.merges[low..high - 1];
      assert t.merges[low..high - 1] == Init(t.merges[low..high]);
    }
  }

  /** The product that the first merge to move a listing took it from. */
  ghost function FirstMover(merges: seq<Merge>, listing: Id): Id
    requires MovedIn(merges, ListingRows, listing)
  {
    MovedSplit(merges, ListingRows, listing);
    if MovedIn(Init(merges), ListingRows, listing) then FirstMover(Init(merges), listing) else merges[|merges| - 1].merged
  }

  lemma {:induction false} HistoryAt(history: map<Id, History>, merges: seq<Merge>, row: Id)
    requires row in history
    ensures var listing := history[row].listing;
            GiveBackHistoryAll(history, merges)[row]
            == if MovedIn(merges, ListingRows, listing) then history[row].(product := FirstMover(merges, listing)) else history[row]
  {
    if merges != [] {
      var last := merges[|merges| - 1];
      var given := GiveBackHistory(history, last.movedListings, last.merged);
      MovedSplit(merges, ListingRows, history[row].listing);
      HistoryAt(given, Init(merges), row);
    }
  }

  /** The first merge that moves a listing takes it from its owner before the run. */
  lemma {:induction false} FirstMoverIsOwner(t: Tables, steps: seq<Step>, listing: Id)
    requires IsRun(t, steps) && listing in t.listings && MovedIn(LogOf(t, steps), ListingRows, listing)
    ensures t.listings[listing] == Some(FirstMover(LogOf(t, steps), listing))
  {
    hide IsRun;
    hide MergeAll;
    hide Apply;
    hide LogOf;
    hide LogRow;
    hide MovedIn;
    hide StepAllowed;
    NoStepsYet(t);
    NothingMoved(ListingRows, listing);
    LastStep(t, steps);
    MovedSplit(LogOf(t, steps), ListingRows, listing);
    RunMoves(t, Init(steps), ListingRows, listing);
    StepMoves(MergeAll(t, Init(steps)), steps[|steps| - 1], ListingRows, listing);
    if MovedIn(LogOf(t, Init(steps)), ListingRows, listing) {
      FirstMoverIsOwner(t, Init(steps), listing);
    }
  }

  /** The run puts this history row back: by its listing, if the run moves that, and by leaving it alone if not. */
  ghost predicate Follows(t: Tables, steps: seq<Step>, row: Id)
    requires IsRun(t, steps) && row in t.history && t.history[row].listing in t.listings
  {
    if MovedIn(LogOf(t, steps), ListingRows, t.history[row].listing) then t.listings[t.history[row].listing] == Some(t.history[row].product)
    else t.history[row].product in MergeAll(t, steps).products
  }

  lemma HistoryRowRestored(t: Tables, steps: seq<Step>, row: Id)
    requires IsRun(t, steps) && References(t) && row in t.history
    ensures row in MergeAll(t, steps).history
    ensures GiveBackHistoryAll(MergeAll(t, steps).history, LogOf(t, steps))[row] == t.history[row] <==> Follows(t, steps, row)
  {
    RunHistory(t, steps);
    RunSurvivors(t, steps);
    hide IsRun;
    hide MergeAll;
    hide LogOf;
    hide GiveBackHistoryAll;
    var listing, product := t.history[row].listing, t.history[row].product;
    HistoryAt(MergeAll(t, steps).history, LogOf(t, steps), row);
    if MovedIn(LogOf(t, steps), ListingRows, listing) {
      FirstMoverIsOwner(t, steps, listing);
    } else {
      SurvivorStays(t.products, MergeAll(t, steps).products, steps, product);
    }
  }

  lemma SurvivorStays(before: map<Id, Product>, after: map<Id, Product>, steps: seq<Step>, product: Id)
    requires OldestSurvive(before, after, steps) && product in before
    ensures Survivor(steps, product) == product <==> product in after
  {
  }

  /**
   * Undone newest first, a run gets its price history back exactly when every
   * row whose listing it moves belongs to that listing's product, and no other
   * row's product is merged away.
   */
  lemma NewestFirstHistoryExactly(t: Tables, steps: seq<Step>, newRows: seq<map<Id, Id>>)
    requires IsRun(t, steps) && References(t)
    requires |t.merges| <= |MergeAll(t, steps).merges| <= |newRows|
    ensures UndoNewestFirst(MergeAll(t, steps), |t.merges|, |MergeAll(t, steps).merges|, newRows).history == t.history
            <==> forall row <- t.history :: Follows(t, steps, row)
  {
    hide IsRun;
    hide MergeAll;
    hide LogOf;
    hide Follows;
    hide GiveBackHistoryAll;
    hide UndoNewestFirst;
    hide HistoryRehomed;
    hide References;
    var after, log := MergeAll(t, steps), LogOf(t, steps);
    RunLogs(t, steps);
    NewestFirstHistory(after, |t.merges|, |after.merges|, newRows);
    assert after.merges[|t.merges|..|after.merges|] == log;
    HistoryRowsRestored(t, steps);
  }

  lemma HistoryRowsRestored(t: Tables, steps: seq<Step>)
    requires IsRun(t, steps) && References(t)
    ensures GiveBackHistoryAll(MergeAll(t, steps).history, LogOf(t, steps)) == t.history
            <==> forall row <- t.history :: Follows(t, steps, row)
  {
    RunHistory(t, steps);
    hide IsRun;
    hide MergeAll;
    hide LogOf;
    hide Follows;
    hide GiveBackHistoryAll;
    var back := GiveBackHistoryAll(MergeAll(t, steps).history, LogOf(t, steps));
    forall row <- t.history ensures row in back && (back[row] == t.history[row] <==> Follows(t, steps, row)) {
      HistoryRowRestored(t, steps, row);
    }
    if forall row <- t.history :: back[row] == t.history[row] { assert back == t.history; }
  }

  /** In particular when each history row's product is its listing's. */
  lemma CoherentHistoryFollows(t: Tables, steps: seq<Step>, row: Id)
    requires IsRun(t, steps) && References(t) && row in t.history
    requires t.listings[t.history[row].listing] == Some(t.history[row].product)
    ensures Follows(t, steps, row)
  {
    RunOwners(t, steps);
    RunSurvivors(t, steps);
    hide IsRun;
    hide MergeAll;
    hide LogOf;
    if !MovedIn(LogOf(t, steps), ListingRows, t.history[row].listing) {
      RunMoves(t, steps, ListingRows, t.history[row].listing);
      SurvivorStays(t.products, MergeAll(t, steps).products, steps, t.history[row].product);
    }
  }
}
