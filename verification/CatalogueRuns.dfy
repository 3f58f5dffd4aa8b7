/**
 * Whole runs of merges: a run is the same as re-homing every row once, along
 * the survivor of its product.
 */
module CatalogueRuns {
  import opened Options
  import opened CatalogueTables
  import opened CatalogueUndo

  /** One merge of a run, with the two rows as the run read them. */
  datatype Step = Step(kept: Id, merged: Id, keepLoaded: Product, mergeLoaded: Product, decidedBy: Decision)

  function Init<T>(s: seq<T>): seq<T>
    requires s != []
  {
    s[..|s| - 1]
  }

  ghost predicate StepAllowed(t: Tables, step: Step) {
    && step.kept in t.products && step.merged in t.products && step.kept != step.merged
    && LoadedFrom(step.keepLoaded, t.products[step.kept]) && LoadedFrom(step.mergeLoaded, t.products[step.merged])
    && t.products[step.kept].createdAt <= t.products[step.merged].createdAt
  }

  function Apply(t: Tables, step: Step): Tables
    requires step.kept in t.products && step.kept != step.merged
  {
    Merged(t, step.kept, step.merged, step.keepLoaded, step.mergeLoaded, step.decidedBy)
  }

  /** Every step merges two products that exist at that point, the newer into the older. */
  ghost predicate IsRun(t: Tables, steps: seq<Step>)
    decreases |steps|, 0
  {
    steps == [] || (IsRun(t, Init(steps)) && StepAllowed(MergeAll(t, Init(steps)), steps[|steps| - 1]))
  }

  ghost function MergeAll(t: Tables, steps: seq<Step>): Tables
    requires IsRun(t, steps)
    decreases |steps|, 1
  {
    if steps == [] then t else Apply(MergeAll(t, Init(steps)), steps[|steps| - 1])
  }

  /** Where a product ends up: itself, or what it was merged into, and so on. */
  ghost function Survivor(steps: seq<Step>, product: Id): Id {
    if steps == [] then product
    else
      var soFar, last := Survivor(Init(steps), product), steps[|steps| - 1];
      if soFar == last.merged then last.kept else soFar
  }

  ghost function Rehome(steps: seq<Step>, owner: Option<Id>): Option<Id> {
    if owner.Some? then Some(Survivor(steps, owner.value)) else None
  }

  ghost predicate OwnersRehomed(before: Owners, after: Owners, steps: seq<Step>) {
    after.Keys == before.Keys && forall row <- before :: after[row] == Rehome(steps, before[row])
  }

  ghost predicate HistoryRehomed(before: map<Id, History>, after: map<Id, History>, steps: seq<Step>) {
    && after.Keys == before.Keys
    && forall row <- before :: after[row] == before[row].(product := Survivor(steps, before[row].product))
  }

  /** Users watch exactly the survivors of what they watched. */
  ghost predicate WatchesRehomed(before: map<Id, Watch>, after: map<Id, Watch>, steps: seq<Step>) {
    && (forall row <- before :: Watch(before[row].user, Survivor(steps, before[row].product)) in after.Values)
    && (forall row <- after :: row in before && after[row] == Watch(before[row].user, Survivor(steps, before[row].product)))
  }

  /** The products left are the survivors, and a survivor is the oldest product of its group. */
  ghost predicate OldestSurvive(before: map<Id, Product>, after: map<Id, Product>, steps: seq<Step>) {
    && (forall product :: product in after <==> product in before && Survivor(steps, product) == product)
    && (forall product <- before ::
          && Survivor(steps, product) in after
          && after[Survivor(steps, product)].createdAt <= before[product].createdAt)
    && (forall product <- after :: after[product].createdAt == before[product].createdAt)
  }

  lemma OneMoreOwners(before: Owners, soFar: Owners, steps: seq<Step>)
    requires steps != [] && OwnersRehomed(before, soFar, Init(steps))
    ensures OwnersRehomed(before, MoveOwners(soFar, steps[|steps| - 1].kept, steps[|steps| - 1].merged), steps)
  {
  }

  /** No user loses a watch in a merge: each is kept, moved, or already there on the keeper. */
  lemma NoWatchLost(watches: map<Id, Watch>, kept: Id, merged: Id, row: Id)
    requires row in watches && kept != merged
    ensures Watch(watches[row].user, if watches[row].product == merged then kept else watches[row].product)
            in MoveWatches(watches, kept, merged).Values
  {
    var after, user := MoveWatches(watches, kept, merged), watches[row].user;
    if watches[row].product == merged && Watches(watches, user, kept) {
      var k :| k in watches && watches[k] == Watch(user, kept);
      assert k in after && after[k] == watches[k];
    } else {
      assert row in after;
    }
  }

  lemma OneMoreWatch(before: map<Id, Watch>, soFar: map<Id, Watch>, steps: seq<Step>, row: Id)
    requires steps != [] && WatchesRehomed(before, soFar, Init(steps)) && steps[|steps| - 1].kept != steps[|steps| - 1].merged
    requires row in before
    ensures Watch(before[row].user, Survivor(steps, before[row].product))
            in MoveWatches(soFar, steps[|steps| - 1].kept, steps[|steps| - 1].merged).Values
  {
    hide MoveWatches;
    var last := steps[|steps| - 1];
    var r :| r in soFar && soFar[r] == Watch(before[row].user, Survivor(Init(steps), before[row].product));
    NoWatchLost(soFar, last.kept, last.merged, r);
  }

  /** And every row left is one of the rows before, re-homed once more. */
  lemma OneMoreRow(before: map<Id, Watch>, soFar: map<Id, Watch>, steps: seq<Step>, row: Id)
    requires steps != [] && WatchesRehomed(before, soFar, Init(steps))
    requires row in MoveWatches(soFar, steps[|steps| - 1].kept, steps[|steps| - 1].merged)
    ensures row in before
    ensures MoveWatches(soFar, steps[|steps| - 1].kept, steps[|steps| - 1].merged)[row]
            == Watch(before[row].user, Survivor(steps, before[row].product))
  {
    hide Watches;
    assert row in soFar;
  }

  lemma OneMoreWatches(before: map<Id, Watch>, soFar: map<Id, Watch>, steps: seq<Step>)
    requires steps != [] && WatchesRehomed(before, soFar, Init(steps)) && steps[|steps| - 1].kept != steps[|steps| - 1].merged
    ensures WatchesRehomed(before, MoveWatches(soFar, steps[|steps| - 1].kept, steps[|steps| - 1].merged), steps)
  {
    hide MoveWatches;
    hide Survivor;
    var after := MoveWatches(soFar, steps[|steps| - 1].kept, steps[|steps| - 1].merged);
    forall row <- before ensures Watch(before[row].user, Survivor(steps, before[row].product)) in after.Values {
      OneMoreWatch(before, soFar, steps, row);
    }
    forall row <- after ensures row in before && after[row] == Watch(before[row].user, Survivor(steps, before[row].product)) {
      OneMoreRow(before, soFar, steps, row);
    }
  }

  lemma OneMoreProducts(before: map<Id, Product>, soFar: Tables, steps: seq<Step>)
    requires steps != [] && OldestSurvive(before, soFar.products, Init(steps)) && StepAllowed(soFar, steps[|steps| - 1])
    ensures OldestSurvive(before, Apply(soFar, steps[|steps| - 1]).products, steps)
  {
    var last := steps[|steps| - 1];
    var after := Apply(soFar, last).products;
    assert Survivor(Init(steps), last.kept) == last.kept && Survivor(Init(steps), last.merged) == last.merged;
    forall product <- before
      ensures Survivor(steps, product) in after && after[Survivor(steps, product)].createdAt <= before[product].createdAt
    {
      assert soFar.products[Survivor(Init(steps), product)].createdAt <= before[product].createdAt;
    }
  }

  lemma {:induction false} RunOwners(t: Tables, steps: seq<Step>)
    requires IsRun(t, steps)
    ensures var after := MergeAll(t, steps);
            && OwnersRehomed(t.listings, after.listings, steps)
            && OwnersRehomed(t.alerts, after.alerts, steps)
            && OwnersRehomed(t.reviews, after.reviews, steps)
  {
    if steps != [] {
      var soFar := MergeAll(t, Init(steps));
      RunOwners(t, Init(steps));
      OneMoreOwners(t.listings, soFar.listings, steps);
      OneMoreOwners(t.alerts, soFar.alerts, steps);
      OneMoreOwners(t.reviews, soFar.reviews, steps);
    }
  }

  lemma {:induction false} RunHistory(t: Tables, steps: seq<Step>)
    requires IsRun(t, steps)
    ensures HistoryRehomed(t.history, MergeAll(t, steps).history, steps)
  {
    hide StepAllowed;
    if steps != [] { RunHistory(t, Init(steps)); }
  }

  lemma {:induction false} RunWatches(t: Tables, steps: seq<Step>)
    requires IsRun(t, steps)
    ensures WatchesRehomed(t.watches, MergeAll(t, steps).watches, steps)
  {
    hide WatchesRehomed;
    if steps != [] {
      RunWatches(t, Init(steps));
      OneMoreWatches(t.watches, MergeAll(t, Init(steps)).watches, steps);
    } else {
      NoWatchSteps(t.watches);
    }
  }

  lemma NoWatchSteps(watches: map<Id, Watch>)
    ensures WatchesRehomed(watches, watches, [])
  {
  }

  lemma {:induction false} RunSurvivors(t: Tables, steps: seq<Step>)
    requires IsRun(t, steps)
    ensures OldestSurvive(t.products, MergeAll(t, steps).products, steps)
  {
    hide OldestSurvive;
    if steps != [] {
      RunSurvivors(t, Init(steps));
      OneMoreProducts(t.products, MergeAll(t, Init(steps)), steps);
    } else {
      NoProductSteps(t.products);
    }
  }

  lemma NoProductSteps(products: map<Id, Product>)
    ensures OldestSurvive(products, products, [])
  {
  }

  lemma ApplyRemoves(t: Tables, step: Step)
    requires StepAllowed(t, step)
    ensures step.merged in t.products && Apply(t, step).products.Keys == t.products.Keys - {step.merged}
  {
  }

  /** A product merged away never comes back within the run, so none is merged away twice. */
  lemma {:induction false} RunMergesOnce(t: Tables, steps: seq<Step>)
    requires IsRun(t, steps)
    ensures MergeAll(t, steps).products.Keys <= t.products.Keys
    ensures forall i | 0 <= i < |steps| :: steps[i].merged in t.products && steps[i].merged !in MergeAll(t, steps).products
    ensures forall i, j | 0 <= i < j < |steps| :: steps[i].merged != steps[j].merged
  {
    hide Merged;
    hide StepAllowed;
    if steps != [] {
      var n := |steps| - 1;
      RunMergesOnce(t, Init(steps));
      ApplyRemoves(MergeAll(t, Init(steps)), steps[n]);
      assert forall i | 0 <= i < n :: steps[i] == Init(steps)[i];
    }
  }

  /** What a run of reconciliation does, in terms of the tables before it. */
  ghost predicate RunEffect(t: Tables, after: Tables, steps: seq<Step>) {
    && Consistent(after)
    && OwnersRehomed(t.listings, after.listings, steps)
    && OwnersRehomed(t.alerts, after.alerts, steps)
    && OwnersRehomed(t.reviews, after.reviews, steps)
    && HistoryRehomed(t.history, after.history, steps)
    && WatchesRehomed(t.watches, after.watches, steps)
    && OldestSurvive(t.products, after.products, steps)
    && forall i, j | 0 <= i < j < |steps| :: steps[i].merged != steps[j].merged
  }

  /**
   * A run keeps every invariant, loses no listing, alert or review item, merges
   * every product away at most once, and re-homes each row along its survivor,
   * the oldest product of its group.
   */
  lemma {:induction false} RunRehomes(t: Tables, steps: seq<Step>)
    requires Consistent(t) && IsRun(t, steps)
    ensures RunEffect(t, MergeAll(t, steps), steps)
  {
    hide Consistent;
    hide OwnersRehomed;
    hide HistoryRehomed;
    hide WatchesRehomed;
    hide OldestSurvive;
    RunConsistent(t, steps);
    RunOwners(t, steps);
    RunHistory(t, steps);
    RunWatches(t, steps);
    RunSurvivors(t, steps);
    RunMergesOnce(t, steps);
  }

  lemma {:induction false} RunConsistent(t: Tables, steps: seq<Step>)
    requires Consistent(t) && IsRun(t, steps)
    ensures Consistent(MergeAll(t, steps))
  {
    hide Consistent;
    hide StepAllowed;
    if steps != [] {
      RunConsistent(t, Init(steps));
      StepKeeps(MergeAll(t, Init(steps)), steps[|steps| - 1]);
    }
  }

  lemma StepKeeps(t: Tables, step: Step)
    requires Consistent(t) && StepAllowed(t, step)
    ensures step.kept in t.products && step.kept != step.merged && Consistent(Apply(t, step))
  {
    MergedConsistent(t, step.kept, step.merged, step.keepLoaded, step.mergeLoaded, step.decidedBy);
  }
}
