/**
 * Merging and undoing keep the tables consistent; undoing a merge restores
 * what it moved.
 */
module CatalogueUndo {
  import opened Options
  import opened CatalogueTables

  // ----- consistency

  lemma MergedFieldsUnique(products: map<Id, Product>, kept: Id, merged: Id, keepLoaded: Product, mergeLoaded: Product)
    requires FieldsUnique(products) && kept in products && merged in products && kept != merged
    requires LoadedFrom(mergeLoaded, products[merged])
    ensures FieldsUnique((products - {merged})[kept := Backfilled(products[kept], keepLoaded, mergeLoaded)])
  {
  }

  lemma MergedWatchesUnique(watches: map<Id, Watch>, kept: Id, merged: Id)
    requires OneWatchEach(watches)
    ensures OneWatchEach(MoveWatches(watches, kept, merged))
  {
  }

  lemma MergedReferences(t: Tables, kept: Id, merged: Id, keepLoaded: Product, mergeLoaded: Product, decidedBy: Decision)
    requires References(t) && kept in t.products && merged in t.products && kept != merged
    ensures References(Merged(t, kept, merged, keepLoaded, mergeLoaded, decidedBy))
  {
  }

  lemma MergedLog(t: Tables, kept: Id, merged: Id, keepLoaded: Product, mergeLoaded: Product, decidedBy: Decision)
    requires LogConsistent(t) && OneWatchEach(t.watches) && kept in t.products && merged in t.products && kept != merged
    ensures LogConsistent(Merged(t, kept, merged, keepLoaded, mergeLoaded, decidedBy))
  {
    var after := Merged(t, kept, merged, keepLoaded, mergeLoaded, decidedBy);
    forall n | 0 <= n < |after.merges| && !after.merges[n].undone ensures Undoable(after, after.merges[n]) {
      if n < |t.merges| { assert Undoable(t, t.merges[n]); }
    }
  }

  /** A merge of two existing products keeps every invariant of the tables. */
  lemma MergedConsistent(t: Tables, kept: Id, merged: Id, keepLoaded: Product, mergeLoaded: Product, decidedBy: Decision)
    requires Consistent(t) && kept in t.products && merged in t.products && kept != merged
    requires LoadedFrom(mergeLoaded, t.products[merged])
    ensures Consistent(Merged(t, kept, merged, keepLoaded, mergeLoaded, decidedBy))
  {
    MergedFieldsUnique(t.products, kept, merged, keepLoaded, mergeLoaded);
    MergedWatchesUnique(t.watches, kept, merged);
    MergedReferences(t, kept, merged, keepLoaded, mergeLoaded, decidedBy);
    MergedLog(t, kept, merged, keepLoaded, mergeLoaded, decidedBy);
  }

  /** Ids for recreated rows: one per user, and never used before. */
  ghost predicate Fresh(t: Tables, users: set<Id>, newRows: map<Id, Id>) {
    && OneRowEach(users, newRows)
    && forall row <- newRows :: row !in t.watches && forall n | 0 <= n < |t.merges| :: row !in t.merges[n].movedWatches
  }

  lemma UndoneFieldsUnique(products: map<Id, Product>, id: Id, snapshot: Product)
    requires FieldsUnique(products) && id !in products
    ensures FieldsUnique(products[id := Recreated(products, snapshot)])
  {
    var again := Recreated(products, snapshot);
    forall field <- UNIQUE_FIELDS, b <- products
      | field in snapshot.fields && field in products[b].fields && products[b].fields[field] == snapshot.fields[field]
      ensures field !in again.fields
    {
      assert Taken(products, field, snapshot.fields[field]);
    }
  }

  lemma UndoneWatchesUnique(t: Tables, n: nat, newRows: map<Id, Id>)
    requires References(t) && OneWatchEach(t.watches)
    requires n < |t.merges| && Undoable(t, t.merges[n]) && Fresh(t, t.merges[n].droppedWatchers, newRows)
    ensures OneWatchEach(Undone(t, n, newRows).watches)
  {
    var merge := t.merges[n];
    var given := GiveBackWatches(t.watches, merge.movedWatches, merge.merged);
    forall a <- given, b <- given | given[a] == given[b] ensures a == b {
      assert t.watches[a].product in t.products && t.watches[b].product in t.products;
    }
    assert forall row <- given :: Watches(given, given[row].user, given[row].product);
  }

  lemma UndoneReferences(t: Tables, n: nat, newRows: map<Id, Id>)
    requires References(t) && n < |t.merges| && Fresh(t, t.merges[n].droppedWatchers, newRows)
    ensures References(Undone(t, n, newRows))
  {
  }

  lemma UndoneLog(t: Tables, n: nat, newRows: map<Id, Id>)
    requires LogConsistent(t) && n < |t.merges| && !t.merges[n].undone && Fresh(t, t.merges[n].droppedWatchers, newRows)
    ensures LogConsistent(Undone(t, n, newRows))
  {
    var after := Undone(t, n, newRows);
    forall m | 0 <= m < |after.merges| && !after.merges[m].undone ensures Undoable(after, after.merges[m]) {
      assert Undoable(t, t.merges[m]);
      forall a <- after.merges[m].movedWatches | a in after.watches ensures a in t.watches && t.watches[a].user == after.watches[a].user {}
    }
  }

  /** Undoing a merge that has not been undone keeps every invariant of the tables. */
  lemma UndoneConsistent(t: Tables, n: nat, newRows: map<Id, Id>)
    requires Consistent(t) && n < |t.merges| && !t.merges[n].undone
    requires Fresh(t, t.merges[n].droppedWatchers, newRows)
    ensures Consistent(Undone(t, n, newRows))
  {
    UndoneFieldsUnique(t.products, t.merges[n].merged, t.merges[n].snapshot);
    UndoneWatchesUnique(t, n, newRows);
    UndoneReferences(t, n, newRows);
    UndoneLog(t, n, newRows);
  }

  // ----- undo after merge

  lemma GiveBackRestores(owners: Owners, kept: Id, merged: Id)
    ensures GiveBack(MoveOwners(owners, kept, merged), OwnedBy(owners, merged), merged) == owners
  {
  }

  lemma WatchesRestored(t: Tables, kept: Id, merged: Id, watches: map<Id, Watch>, newRows: map<Id, Id>, merge: Merge)
    requires OneWatchEach(t.watches) && kept != merged
    requires merge.movedWatches == MovedRows(t.watches, kept, merged)
    requires merge.droppedWatchers == DroppedUsers(t.watches, kept, merged)
    requires OneRowEach(merge.droppedWatchers, newRows) && forall row <- newRows :: row !in t.watches
    requires watches == RecreatedWatches(GiveBackWatches(MoveWatches(t.watches, kept, merged), merge.movedWatches, merged),
                                         merge.droppedWatchers, merged, newRows)
    ensures watches.Values == t.watches.Values
  {
    var given := GiveBackWatches(MoveWatches(t.watches, kept, merged), merge.movedWatches, merged);
    assert forall row <- given :: row in t.watches && given[row] == t.watches[row];
    forall row <- t.watches ensures t.watches[row] in watches.Values {
      var watch := t.watches[row];
      if row in given {
        assert watches[row] == watch;
      } else {
        assert watch.user in merge.droppedWatchers;
        assert !Watches(given, watch.user, merged);
        var again :| again in newRows && newRows[again] == watch.user;
        assert watches[again] == watch;
      }
    }
    forall row <- watches ensures watches[row] in t.watches.Values {
      if row in given {
        assert watches[row] == t.watches[row];
      } else {
        assert watches[row] == Watch(newRows[row], merged);
      }
    }
  }

  /**
   * The product an undo creates again: its row as it was, without the unique
   * identifiers that some product holds at that time. No other product changes.
   */
  ghost predicate IsRecreated(before: map<Id, Product>, after: map<Id, Product>, id: Id, snapshot: Product) {
    && after.Keys == before.Keys + {id} && (forall other <- before | other != id :: after[other] == before[other])
    && after[id].title == snapshot.title && after[id].createdAt == snapshot.createdAt && after[id].attributes == snapshot.attributes
    && (forall field <- after[id].fields :: field in snapshot.fields && after[id].fields[field] == snapshot.fields[field])
    && forall field <- snapshot.fields ::
         field in after[id].fields
         <==> !(field == Gtin || field == Upc || field == Ean)
              || forall other <- before :: field in before[other].fields ==> before[other].fields[field] != snapshot.fields[field]
  }

  lemma UndoneProduct(t: Tables, n: nat, newRows: map<Id, Id>)
    requires n < |t.merges|
    ensures IsRecreated(t.products, Undone(t, n, newRows).products, t.merges[n].merged, t.merges[n].snapshot)
  {
  }

  /**
   * Undoing the latest merge gives every listing, alert and review item back
   * its product, restores the set of products and the set of (user, product)
   * watches, and changes no product but the keeper, which keeps what it took.
   */
  lemma UndoRestores(t: Tables, kept: Id, merged: Id, keepLoaded: Product, mergeLoaded: Product, decidedBy: Decision, newRows: map<Id, Id>)
    requires OneWatchEach(t.watches) && kept in t.products && merged in t.products && kept != merged
    requires var after := Merged(t, kept, merged, keepLoaded, mergeLoaded, decidedBy);
             Fresh(after, after.merges[|t.merges|].droppedWatchers, newRows) && forall row <- newRows :: row !in t.watches
    ensures var after := Merged(t, kept, merged, keepLoaded, mergeLoaded, decidedBy);
            var back := Undone(after, |t.merges|, newRows);
            && back.listings == t.listings && back.alerts == t.alerts && back.reviews == t.reviews
            && back.watches.Values == t.watches.Values
            && back.products == t.products[kept := Backfilled(t.products[kept], keepLoaded, mergeLoaded)]
                                          [merged := Recreated(after.products, mergeLoaded)]
            && IsRecreated(after.products, back.products, merged, mergeLoaded)
  {
    hide IsRecreated;
    hide GiveBack;
    hide GiveBackWatches;
    hide RecreatedWatches;
    hide Recreated;
    hide Backfilled;

    GiveBackRestores(t.listings, kept, merged);
    GiveBackRestores(t.alerts, kept, merged);
    GiveBackRestores(t.reviews, kept, merged);
    var after := Merged(t, kept, merged, keepLoaded, mergeLoaded, decidedBy);
    UndoneProduct(after, |t.merges|, newRows);
    var merge := after.merges[|t.merges|];
    assert merge == MergeRow(t, kept, merged, mergeLoaded, decidedBy);
    WatchesRestored(t, kept, merged, Undone(after, |t.merges|, newRows).watches, newRows, merge);
  }

  /**
   * Undone right after its merge, a product has all its fields back, except for
   * the unique identifiers the keeper took from it: those of which the keeper's
   * row, as it was read, had none.
   */
  lemma FieldReturnsExactly(t: Tables, kept: Id, merged: Id, keepLoaded: Product, mergeLoaded: Product, decidedBy: Decision,
                            newRows: map<Id, Id>, field: Field)
    requires FieldsUnique(t.products) && kept in t.products && merged in t.products && kept != merged
    requires LoadedFrom(keepLoaded, t.products[kept]) && LoadedFrom(mergeLoaded, t.products[merged]) && field in mergeLoaded.fields
    ensures var after := Merged(t, kept, merged, keepLoaded, mergeLoaded, decidedBy);
            var back := Undone(after, |t.merges|, newRows).products;
            merged in back && (field in back[merged].fields
                               <==> field in keepLoaded.fields || !(field == Gtin || field == Upc || field == Ean))
  {
    var after := Merged(t, kept, merged, keepLoaded, mergeLoaded, decidedBy);
    UndoneProduct(after, |t.merges|, newRows);
    hide Undone;
    hide Backfilled;
    if field in UNIQUE_FIELDS { TakenByKeeper(t.products, kept, merged, keepLoaded, mergeLoaded, field); }
  }

  /** A unique identifier of a merged product is held by someone afterwards exactly if the keeper took it. */
  lemma TakenByKeeper(products: map<Id, Product>, kept: Id, merged: Id, keepLoaded: Product, mergeLoaded: Product, field: Field)
    requires FieldsUnique(products) && kept in products && merged in products && kept != merged
    requires LoadedFrom(keepLoaded, products[kept]) && LoadedFrom(mergeLoaded, products[merged])
    requires field in UNIQUE_FIELDS && field in mergeLoaded.fields
    ensures Taken((products - {merged})[kept := Backfilled(products[kept], keepLoaded, mergeLoaded)], field, mergeLoaded.fields[field])
            <==> field !in keepLoaded.fields
  {
    var after := (products - {merged})[kept := Backfilled(products[kept], keepLoaded, mergeLoaded)];
    var value := mergeLoaded.fields[field];
    assert products[merged].fields[field] == value;
    if field in keepLoaded.fields {
      forall other <- after | field in after[other].fields ensures after[other].fields[field] != value {
        assert after[other].fields[field] == products[other].fields[field];
      }
    } else {
      assert after[kept].fields[field] == value;
    }
  }

  /**
   * Price history follows its listings on undo, so it is restored exactly when
   * every history row of the merged product belongs to one of its listings and
   * every history row of its listings is its own.
   */
  lemma HistoryRestoredExactly(history: map<Id, History>, listings: Owners, kept: Id, merged: Id)
    requires kept != merged && forall row <- history :: history[row].listing in listings
    ensures GiveBackHistory(MoveHistory(history, kept, merged), OwnedBy(listings, merged), merged) == history
            <==> forall row <- history :: history[row].product == merged <==> listings[history[row].listing] == Some(merged)
  {
    var moved := MoveHistory(history, kept, merged);
    var back := GiveBackHistory(moved, OwnedBy(listings, merged), merged);
    forall row <- history
      ensures back[row] == history[row] <==> (history[row].product == merged <==> listings[history[row].listing] == Some(merged))
    {
    }
    if forall row <- history :: back[row] == history[row] {
      assert back == history;
    }
  }
}
