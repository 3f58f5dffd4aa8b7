/** The reconciliation service over its tables; each transaction is one method. */
module Reconciliation {
  import opened Options
  import opened CatalogueTables
  import opened CatalogueUndo
  import opened CatalogueRuns
  import opened CatalogueFields

  datatype Pair = Pair(a: Id, b: Id)

  /** What the job asks of the rest of the system about a pair; every answer is arbitrary. */
  datatype Advice = Advice(
    hardConflict: (Product, Product) -> bool,
    accessory: Id -> bool,
    storedVerdict: nat -> bool,
    judge: nat -> Option<bool>
  )

  const SCALAR_KEYS := [Gtin, Upc, Ean, Mpn, Sku, Brand, Model, ImageUrl, ThumbnailUrl]

  /** The fields among `keys` that the keeper's loaded row lacks and the merged product's has. */
  ghost function ToCopy(keepLoaded: Product, mergeLoaded: Product, keys: set<Field>): map<Field, Id> {
    map field <- mergeLoaded.fields | field !in keepLoaded.fields && field in keys :: mergeLoaded.fields[field]
  }

  lemma ToCopyOne(keepLoaded: Product, mergeLoaded: Product, keys: set<Field>, key: Field)
    ensures ToCopy(keepLoaded, mergeLoaded, keys + {key})
            == if key !in keepLoaded.fields && key in mergeLoaded.fields
               then ToCopy(keepLoaded, mergeLoaded, keys)[key := mergeLoaded.fields[key]]
               else ToCopy(keepLoaded, mergeLoaded, keys)
  {
  }

  lemma NothingToCopy(keepLoaded: Product, mergeLoaded: Product)
    ensures ToCopy(keepLoaded, mergeLoaded, {}) == map[]
  {
  }

  lemma ToCopyAll(keepLoaded: Product, mergeLoaded: Product, keys: set<Field>)
    requires forall k | 0 <= k < |SCALAR_KEYS| :: SCALAR_KEYS[k] in keys
    ensures ToCopy(keepLoaded, mergeLoaded, keys)
            == map field <- mergeLoaded.fields | field !in keepLoaded.fields :: mergeLoaded.fields[field]
  {
    AllKeys(keys);
  }

  lemma AllKeys(keys: set<Field>)
    requires forall k | 0 <= k < |SCALAR_KEYS| :: SCALAR_KEYS[k] in keys
    ensures forall field: Field :: field in keys
  {
    assert SCALAR_KEYS[0] in keys && SCALAR_KEYS[1] in keys && SCALAR_KEYS[2] in keys && SCALAR_KEYS[3] in keys
           && SCALAR_KEYS[4] in keys && SCALAR_KEYS[5] in keys && SCALAR_KEYS[6] in keys && SCALAR_KEYS[7] in keys
           && SCALAR_KEYS[8] in keys;
    forall field: Field ensures field in keys {
      match field
      case Gtin => case Upc => case Ean => case Mpn => case Sku => case Brand => case Model => case ImageUrl => case ThumbnailUrl =>
    }
  }

  method FieldsToCopy(keepLoaded: Product, mergeLoaded: Product) returns (data: map<Field, Id>)
    ensures data == map field <- mergeLoaded.fields | field !in keepLoaded.fields :: mergeLoaded.fields[field]
  {
    hide ToCopy;
    data := map[];
    ghost var keys := {};
    NothingToCopy(keepLoaded, mergeLoaded);
    for k := 0 to |SCALAR_KEYS|
      invariant data == ToCopy(keepLoaded, mergeLoaded, keys)
      invariant forall i | 0 <= i < k :: SCALAR_KEYS[i] in keys
    {
      var key := SCALAR_KEYS[k];
      ToCopyOne(keepLoaded, mergeLoaded, keys, key);
      if key !in keepLoaded.fields && key in mergeLoaded.fields {
        data := data[key := mergeLoaded.fields[key]];
      }
      keys := keys + {key};
    }
    ToCopyAll(keepLoaded, mergeLoaded, keys);
  }

  /** The spread of both objects is written when it has more keys than the keeper's. */
  method AttributesToWrite(row: Product, keepLoaded: Product, mergeLoaded: Product) returns (attributes: map<Id, Id>)
    ensures attributes == BackfilledAttributes(row, keepLoaded, mergeLoaded)
  {
    var spread := mergeLoaded.attributes + keepLoaded.attributes;
    assert spread.Keys == mergeLoaded.attributes.Keys + keepLoaded.attributes.Keys;
    MoreKeysExactly(mergeLoaded.attributes.Keys, keepLoaded.attributes.Keys);
    attributes := if |spread.Keys| > |keepLoaded.attributes.Keys| then spread else row.attributes;
  }

  lemma MoreKeysExactly(more: set<Id>, keys: set<Id>)
    ensures |more + keys| > |keys| <==> !(more <= keys)
  {
    assert more + keys == keys + (more - keys);
    assert more <= keys <==> more - keys == {};
  }

  /** Watch rows of the merged product that are in `done` have been moved or dropped. */
  ghost function Rewritten(watches: map<Id, Watch>, keepWatchers: set<Id>, kept: Id, done: set<Id>): map<Id, Watch> {
    map row <- watches | row !in done || watches[row].user !in keepWatchers ::
      if row in done then watches[row].(product := kept) else watches[row]
  }

  ghost function MovedSoFar(watches: map<Id, Watch>, keepWatchers: set<Id>, done: set<Id>): set<Id> {
    set row <- watches | row in done && watches[row].user !in keepWatchers
  }

  ghost function DroppedSoFar(watches: map<Id, Watch>, keepWatchers: set<Id>, done: set<Id>): set<Id> {
    set row <- watches | row in done && watches[row].user in keepWatchers :: watches[row].user
  }

  /** One more row is moved or dropped. */
  lemma RewriteOne(watches: map<Id, Watch>, keepWatchers: set<Id>, kept: Id, done: set<Id>, row: Id)
    requires row in watches && row !in done
    ensures watches[row].user in keepWatchers ==>
              && Rewritten(watches, keepWatchers, kept, done + {row}) == Rewritten(watches, keepWatchers, kept, done) - {row}
              && MovedSoFar(watches, keepWatchers, done + {row}) == MovedSoFar(watches, keepWatchers, done)
              && DroppedSoFar(watches, keepWatchers, done + {row}) == DroppedSoFar(watches, keepWatchers, done) + {watches[row].user}
    ensures watches[row].user !in keepWatchers ==>
              && Rewritten(watches, keepWatchers, kept, done + {row})
                 == Rewritten(watches, keepWatchers, kept, done)[row := watches[row].(product := kept)]
              && MovedSoFar(watches, keepWatchers, done + {row}) == MovedSoFar(watches, keepWatchers, done) + {row}
              && DroppedSoFar(watches, keepWatchers, done + {row}) == DroppedSoFar(watches, keepWatchers, done)
  {
  }

  lemma NoneRewritten(watches: map<Id, Watch>, keepWatchers: set<Id>, kept: Id)
    ensures Rewritten(watches, keepWatchers, kept, {}) == watches
    ensures MovedSoFar(watches, keepWatchers, {}) == {} && DroppedSoFar(watches, keepWatchers, {}) == {}
  {
  }

  lemma AllRewritten(watches: map<Id, Watch>, keepWatchers: set<Id>, kept: Id, merged: Id, done: set<Id>)
    requires forall user :: user in keepWatchers <==> Watches(watches, user, kept)
    requires done == set row <- watches | watches[row].product == merged
    ensures Rewritten(watches, keepWatchers, kept, done) == MoveWatches(watches, kept, merged)
    ensures MovedSoFar(watches, keepWatchers, done) == MovedRows(watches, kept, merged)
    ensures DroppedSoFar(watches, keepWatchers, done) == DroppedUsers(watches, kept, merged)
  {
  }

  class ReconciliationService {
    var products: map<Id, Product>
    var listings: Owners
    var alerts: Owners
    var reviews: Owners
    var history: map<Id, History>
    var watches: map<Id, Watch>
    var merges: seq<Merge>

    ghost function State(): Tables
      reads this
    {
      Tables(products, listings, alerts, reviews, history, watches, merges)
    }

    /** One transaction: everything that pointed at `merged` points at `kept`, and `merged` is deleted. */
    method MergeCanonicals(kept: Id, merged: Id, keepLoaded: Product, mergeLoaded: Product, decidedBy: Decision)
      requires kept in products && kept != merged
      modifies this
      ensures State() == Merged(old(State()), kept, merged, keepLoaded, mergeLoaded, decidedBy)
      // the log gets one row: what was merged into what, the row as read, what moved, and who decided
      ensures |merges| == |old(merges)| + 1 && merges[..|old(merges)|] == old(merges)
      ensures var logged := merges[|old(merges)|];
              && logged.kept == kept && logged.merged == merged && logged.snapshot == mergeLoaded && logged.decidedBy == decidedBy
              && logged.aiVerdict == (if decidedBy == Ai then Some(true) else None) && !logged.undone
    {
      hide MoveOwners;
      hide MoveHistory;
      hide MoveWatches;
      hide OwnedBy;
      hide MovedRows;
      hide DroppedUsers;
      var movedListings, movedAlerts, movedReviews := OwnedBy(listings, merged), OwnedBy(alerts, merged), OwnedBy(reviews, merged);
      listings := MoveOwners(listings, kept, merged);
      history := MoveHistory(history, kept, merged);
      alerts := MoveOwners(alerts, kept, merged);
      reviews := MoveOwners(reviews, kept, merged);

      var movedWatches, droppedWatchers := MoveWatchlist(kept, merged);

      products := products - {merged};
      var data := FieldsToCopy(keepLoaded, mergeLoaded);
      var attributes := AttributesToWrite(products[kept], keepLoaded, mergeLoaded);
      products := products[kept := products[kept].(fields := products[kept].fields + data, attributes := attributes)];

      merges := merges + [Merge(kept, merged, mergeLoaded, movedListings, movedAlerts, movedReviews, movedWatches, droppedWatchers,
                                decidedBy, if decidedBy == Ai then Some(true) else None, false)];
    }

    /** Moves the watch rows of users who do not watch the keeper, and deletes the others. */
    method MoveWatchlist(kept: Id, merged: Id) returns (movedWatches: set<Id>, droppedWatchers: set<Id>)
      requires kept != merged
      modifies this`watches
      ensures watches == MoveWatches(old(watches), kept, merged)
      ensures movedWatches == MovedRows(old(watches), kept, merged)
      ensures droppedWatchers == DroppedUsers(old(watches), kept, merged)
    {
      var before := watches;
      var keepWatchers := set row <- before | before[row].product == kept :: before[row].user;
      assert forall user :: user in keepWatchers <==> Watches(before, user, kept);
      var all := set row <- before | before[row].product == merged;
      AllRewritten(before, keepWatchers, kept, merged, all);
      NoneRewritten(before, keepWatchers, kept);
      movedWatches, droppedWatchers := RewriteRows(all, keepWatchers, kept);
    }

    /** The loop over the merged product's watch rows, in any order. */
    method RewriteRows(all: set<Id>, keepWatchers: set<Id>, kept: Id) returns (movedWatches: set<Id>, droppedWatchers: set<Id>)
      requires all <= watches.Keys
      modifies this`watches
      ensures watches == Rewritten(old(watches), keepWatchers, kept, all)
      ensures movedWatches == MovedSoFar(old(watches), keepWatchers, all)
      ensures droppedWatchers == DroppedSoFar(old(watches), keepWatchers, all)
    {
      NoneRewritten(watches, keepWatchers, kept);
      hide Rewritten;
      hide MovedSoFar;
      hide DroppedSoFar;
      var before, rest := watches, all;
      ghost var done: set<Id> := {};
      movedWatches, droppedWatchers := {}, {};
      while rest != {}
        invariant done !! rest && done + rest == all
        invariant watches == Rewritten(before, keepWatchers, kept, done)
        invariant movedWatches == MovedSoFar(before, keepWatchers, done)
        invariant droppedWatchers == DroppedSoFar(before, keepWatchers, done)
        decreases |rest|
      {
        var row :| row in rest;
        assert row in all;
        RewriteOne(before, keepWatchers, kept, done, row);
        if before[row].user in keepWatchers {
          watches := watches - {row};
          droppedWatchers := droppedWatchers + {before[row].user};
        } else {
          watches := watches[row := before[row].(product := kept)];
          movedWatches := movedWatches + {row};
        }
        rest, done := rest - {row}, done + {row};
      }
      assert done == all;
    }

    /** One transaction: the merge logged at `n` is undone; `newRows` are the ids of recreated watch rows. */
    method UndoMerge(n: nat, newRows: map<Id, Id>)
      requires n < |merges|
      modifies this
      ensures State() == Undone(old(State()), n, newRows)
      ensures IsRecreated(old(products), products, old(merges)[n].merged, old(merges)[n].snapshot)
      ensures merges == old(merges)[n := old(merges)[n].(aiVerdict := Some(false), undone := true)]
    {
      UndoneProduct(State(), n, newRows);
      var merge := merges[n];
      products := products[merge.merged := Recreated(products, merge.snapshot)];
      listings := GiveBack(listings, merge.movedListings, merge.merged);
      history := GiveBackHistory(history, merge.movedListings, merge.merged);
      alerts := GiveBack(alerts, merge.movedAlerts, merge.merged);
      reviews := GiveBack(reviews, merge.movedReviews, merge.merged);
      watches := GiveBackWatches(watches, merge.movedWatches, merge.merged);
      if |merge.droppedWatchers| > 0 {
        watches := RecreatedWatches(watches, merge.droppedWatchers, merge.merged, newRows);
      } else {
        NothingDropped(watches, merge.droppedWatchers, merge.merged, newRows);
      }
      merges := merges[n := merge.(aiVerdict := Some(false), undone := true)];
    }

    /**
     * The main loop. `rows` are the products of the pairs, read once before it.
     * What it merges (or, in a dry run, would merge) is a run from the tables it
     * started with; only pairs the guards let through and the judge approved are
     * merged, and the judge is newly asked at most `maxPairs` times.
     */
    method Reconcile(pairs: seq<Pair>, rows: map<Id, Product>, advice: Advice, maxPairs: nat, dryRun: bool)
      returns (steps: seq<Step>, examined: nat, asked: nat, ghost chosen: seq<nat>, ghost stopped: nat)
      requires Consistent(State())
      requires forall id <- rows :: id in products && products[id] == rows[id]
      requires forall pair <- pairs :: pair.a != pair.b
      modifies this
      ensures IsRun(old(State()), steps)
      ensures State() == if dryRun then old(State()) else MergeAll(old(State()), steps)
      ensures RunEffect(old(State()), MergeAll(old(State()), steps), steps) && ReadBefore(old(State()), steps)
      ensures forall i | 0 <= i < |steps| && i < |chosen| :: chosen[i] < |pairs| && Approved(pairs, rows, advice, chosen[i], steps[i])
      // it stops early only when the budget is used up, and until then leaves no pair out that it should merge
      ensures stopped <= |pairs| && (stopped < |pairs| ==> asked == maxPairs)
      ensures asked <= maxPairs && Progress(pairs, rows, advice, steps, chosen, stopped, examined, asked)
    {
      hide Consistent;
      hide IsRun;
      hide MergeAll;
      hide RunEffect;
      hide Merged;
      hide LoadedFrom;
      hide Approved;
      hide OnTrack;
      hide MergedAway;
      hide ReadBefore;
      hide StepAllowed;
      hide Apply;
      hide Progress;
      hide Considered;
      hide Clear;
      ghost var t0 := State();
      NoSteps(t0, rows);
      var consumed: set<Id> := {};
      steps, examined, asked, chosen, stopped := [], 0, 0, [], |pairs|;
      NoProgress(pairs, rows, advice);
      ghost var t := t0;
      for p := 0 to |pairs|
        invariant OnTrack(t0, t, steps, rows, consumed)
        invariant State() == if dryRun then t0 else t
        invariant asked <= maxPairs && |chosen| == |steps| && stopped == |pairs|
        invariant forall i | 0 <= i < |steps| :: chosen[i] < |pairs| && Approved(pairs, rows, advice, chosen[i], steps[i])
        invariant forall id :: id in consumed <==> MergedAway(steps, id)
        invariant Progress(pairs, rows, advice, steps, chosen, p, examined, asked)
      {
        if asked >= maxPairs {
          stopped := p;
          break;
        }
        var pair := pairs[p];
        assert pair in pairs;
        PairNow(pairs, rows, advice, steps, chosen, p, examined, asked);
        ghost var merges := Considered(pairs, rows, steps, chosen, p) && Clear(pairs, rows, advice, p) && advice.judge(p) == Some(true);
        if !merges { NextPair(pairs, rows, advice, steps, chosen, p, examined, asked); }
        if pair.a in consumed || pair.b in consumed { continue; }
        if pair.a !in rows || pair.b !in rows { continue; }
        var a, b := rows[pair.a], rows[pair.b];
        examined := examined + 1;
        if advice.hardConflict(a, b) { continue; }
        if advice.accessory(a.title) || advice.accessory(b.title) { continue; }
        if !advice.storedVerdict(p) { asked := asked + 1; }
        if advice.judge(p) != Some(true) { continue; }

        var kept, merged := if a.createdAt <= b.createdAt then pair.a else pair.b, if a.createdAt <= b.createdAt then pair.b else pair.a;
        var step := Step(kept, merged, rows[kept], rows[merged], Ai);
        TrackExtends(t0, t, steps, step, rows, consumed);
        NextMerge(pairs, rows, advice, steps, chosen, p, examined - 1, if advice.storedVerdict(p) then asked else asked - 1, step);
        steps := steps + [step];
        if !dryRun {
          MergeCanonicals(kept, merged, rows[kept], rows[merged], Ai);
        }
        t := Merged(t, kept, merged, rows[kept], rows[merged], Ai);
        consumed := consumed + {merged};
        chosen := chosen + [p];
        ApprovedNow(pairs, rows, advice, p, step);
      }
      TrackEnds(t0, t, steps, rows, consumed);
      RunRehomes(t0, steps);
      ApprovedWereRead(t0, pairs, rows, advice, chosen, steps);
    }

    /**
     * The judge's review of earlier merges the rules made alone, in log order;
     * it stops at the first pair the judge cannot answer.
     */
    method ReviewUnreviewedMerges(judge: nat -> Option<bool>, newRows: seq<map<Id, Id>>, limit: nat)
      returns (queue: seq<nat>, reviewed: nat)
      requires Consistent(State()) && FreshSupply(State(), newRows)
      modifies this
      ensures queue == Pending(old(merges), limit) && reviewed <= |queue|
      ensures forall k | 0 <= k < reviewed :: judge(queue[k]).Some?
      ensures reviewed < |queue| ==> judge(queue[reviewed]).None?
      ensures LivePositions(old(merges), queue, 0)
      ensures State() == ReviewAll(old(State()), queue[..reviewed], judge, newRows)
      ensures Consistent(State())
      // the queue: the oldest merges the rules made alone that have neither a verdict nor been undone
      ensures |queue| <= limit && FirstUnreviewed(old(merges), queue, limit)
      // and what the log says of them afterwards
      ensures Answered(old(merges), merges, queue[..reviewed], judge)
    {
      hide Consistent;
      hide Undone;
      hide FreshSupply;
      hide LivePositions;
      hide Pending;
      hide Review;
      hide IsRecreated;
      hide FirstUnreviewed;
      hide Answered;
      hide ReviewAll;
      ghost var t0 := State();
      SupplySize(t0, newRows);
      queue := Pending(merges, limit);
      PendingMeaning(merges, limit);
      reviewed := 0;
      assert queue[..0] == [];
      NothingAnswered(t0, judge, newRows);
      while reviewed < |queue|
        invariant reviewed <= |queue| && LivePositions(t0.merges, queue, 0)
        invariant forall k | 0 <= k < reviewed :: judge(queue[k]).Some?
        invariant State() == ReviewAll(t0, queue[..reviewed], judge, newRows)
        invariant Consistent(State()) && |merges| == |t0.merges| == |newRows|
        invariant forall k | 0 <= k < |queue| :: queue[k] < |t0.merges|
      {
        var n := queue[reviewed];
        var verdict := judge(n);
        if verdict.None? { break; }
        ReviewKeeps(t0, queue, reviewed, judge, newRows);
        OneAnswer(ReviewAll(t0, queue[..reviewed], judge, newRows), n, verdict.value, newRows[n]);
        NextAnswer(t0, queue, reviewed, judge, newRows);
        if verdict.value {
          merges := merges[n := merges[n].(aiVerdict := Some(true))];
        } else {
          UndoMerge(n, newRows[n]);
        }
        reviewed := reviewed + 1;
      }
      PendingExactly(t0.merges, limit);
      ReviewedLog(t0, queue, reviewed, judge, newRows);
    }
  }

  lemma NothingDropped(watches: map<Id, Watch>, users: set<Id>, product: Id, newRows: map<Id, Id>)
    requires users == {}
    ensures RecreatedWatches(watches, users, product, newRows) == watches
  {
  }

  // ----- which pairs the loop merges

  /** One of the merges so far merged this product away. */
  ghost predicate MergedAway(steps: seq<Step>, id: Id) {
    exists i :: 0 <= i < |steps| && steps[i].merged == id
  }

  /** Both products were read, and none of the merges chosen before this pair has merged one of them away. */
  ghost predicate Considered(pairs: seq<Pair>, rows: map<Id, Product>, steps: seq<Step>, chosen: seq<nat>, p: int) {
    && 0 <= p < |pairs| && pairs[p].a in rows && pairs[p].b in rows
    && forall i | 0 <= i < |steps| && i < |chosen| && chosen[i] < p :: steps[i].merged != pairs[p].a && steps[i].merged != pairs[p].b
  }

  /** Neither a conflict nor an accessory. */
  ghost predicate Clear(pairs: seq<Pair>, rows: map<Id, Product>, advice: Advice, p: int) {
    && 0 <= p < |pairs| && pairs[p].a in rows && pairs[p].b in rows
    && !advice.hardConflict(rows[pairs[p].a], rows[pairs[p].b])
    && !advice.accessory(rows[pairs[p].a].title) && !advice.accessory(rows[pairs[p].b].title)
  }

  /** How many pairs before `upTo` were considered, and how many of those had to be put to the judge. */
  ghost predicate Counted(pairs: seq<Pair>, rows: map<Id, Product>, advice: Advice, steps: seq<Step>, chosen: seq<nat>,
                          upTo: nat, examined: nat, asked: nat)
  {
    examined == |Looked(pairs, rows, steps, chosen, upTo)| && asked == |Judged(pairs, rows, advice, steps, chosen, upTo)|
  }

  /**
   * Before pair `upTo` exactly the considered, clear and approved pairs were
   * chosen, in order; the considered ones were counted, and so were the clear
   * ones among them whose verdict was not stored.
   */
  ghost predicate Progress(pairs: seq<Pair>, rows: map<Id, Product>, advice: Advice, steps: seq<Step>, chosen: seq<nat>,
                           upTo: nat, examined: nat, asked: nat)
  {
    && |chosen| == |steps| && Increasing(chosen)
    && (forall i | 0 <= i < |chosen| :: chosen[i] < upTo)
    && (forall p: nat | p < upTo ::
          p in chosen <==> Considered(pairs, rows, steps, chosen, p) && Clear(pairs, rows, advice, p) && advice.judge(p) == Some(true))
    && Counted(pairs, rows, advice, steps, chosen, upTo, examined, asked)
  }

  lemma NoProgress(pairs: seq<Pair>, rows: map<Id, Product>, advice: Advice)
    ensures Progress(pairs, rows, advice, [], [], 0, 0, 0) && forall id :: !MergedAway([], id)
  {
  }

  ghost function Looked(pairs: seq<Pair>, rows: map<Id, Product>, steps: seq<Step>, chosen: seq<nat>, upTo: nat): set<nat> {
    set p: nat | p < upTo && Considered(pairs, rows, steps, chosen, p)
  }

  ghost function Judged(pairs: seq<Pair>, rows: map<Id, Product>, advice: Advice, steps: seq<Step>, chosen: seq<nat>, upTo: nat): set<nat> {
    set p: nat | p < upTo && Asks(pairs, rows, advice, steps, chosen, p)
  }

  ghost predicate Asks(pairs: seq<Pair>, rows: map<Id, Product>, advice: Advice, steps: seq<Step>, chosen: seq<nat>, p: nat) {
    Considered(pairs, rows, steps, chosen, p) && Clear(pairs, rows, advice, p) && !advice.storedVerdict(p)
  }

  /** What the loop tests at pair `p`, with the products merged away so far. */
  lemma PairNow(pairs: seq<Pair>, rows: map<Id, Product>, advice: Advice, steps: seq<Step>, chosen: seq<nat>, p: nat, examined: nat, asked: nat)
    requires p < |pairs| && Progress(pairs, rows, advice, steps, chosen, p, examined, asked)
    ensures Considered(pairs, rows, steps, chosen, p)
            <==> pairs[p].a in rows && pairs[p].b in rows && !MergedAway(steps, pairs[p].a) && !MergedAway(steps, pairs[p].b)
    ensures pairs[p].a in rows && pairs[p].b in rows ==>
              (Clear(pairs, rows, advice, p)
               <==> && !advice.hardConflict(rows[pairs[p].a], rows[pairs[p].b])
                    && !advice.accessory(rows[pairs[p].a].title) && !advice.accessory(rows[pairs[p].b].title))
  {
  }

  lemma CountedNext(pairs: seq<Pair>, rows: map<Id, Product>, advice: Advice, steps: seq<Step>, chosen: seq<nat>, p: nat, examined: nat, asked: nat)
    requires Counted(pairs, rows, advice, steps, chosen, p, examined, asked)
    ensures Counted(pairs, rows, advice, steps, chosen, p + 1,
                    if Considered(pairs, rows, steps, chosen, p) then examined + 1 else examined,
                    if Considered(pairs, rows, steps, chosen, p) && Clear(pairs, rows, advice, p) && !advice.storedVerdict(p)
                    then asked + 1 else asked)
  {
    hide Considered;
    hide Clear;
    hide Looked;
    hide Judged;
    LookedNext(pairs, rows, steps, chosen, p);
    JudgedNext(pairs, rows, advice, steps, chosen, p);
  }

  lemma LookedNext(pairs: seq<Pair>, rows: map<Id, Product>, steps: seq<Step>, chosen: seq<nat>, p: nat)
    ensures |Looked(pairs, rows, steps, chosen, p + 1)|
            == |Looked(pairs, rows, steps, chosen, p)| + if Considered(pairs, rows, steps, chosen, p) then 1 else 0
  {
    hide Considered;
    var before, after := Looked(pairs, rows, steps, chosen, p), Looked(pairs, rows, steps, chosen, p + 1);
    if Considered(pairs, rows, steps, chosen, p) {
      assert after == before + {p};
    } else {
      assert after == before;
    }
  }

  lemma JudgedNext(pairs: seq<Pair>, rows: map<Id, Product>, advice: Advice, steps: seq<Step>, chosen: seq<nat>, p: nat)
    ensures |Judged(pairs, rows, advice, steps, chosen, p + 1)|
            == |Judged(pairs, rows, advice, steps, chosen, p)|
               + if Asks(pairs, rows, advice, steps, chosen, p) then 1 else 0
  {
    hide Asks;
    var before, after := Judged(pairs, rows, advice, steps, chosen, p), Judged(pairs, rows, advice, steps, chosen, p + 1);
    if Asks(pairs, rows, advice, steps, chosen, p) {
      assert after == before + {p};
    } else {
      assert after == before;
    }
  }

  /** A pair that is not merged. */
  lemma NextPair(pairs: seq<Pair>, rows: map<Id, Product>, advice: Advice, steps: seq<Step>, chosen: seq<nat>, p: nat, examined: nat, asked: nat)
    requires p < |pairs| && Progress(pairs, rows, advice, steps, chosen, p, examined, asked)
    requires !(Considered(pairs, rows, steps, chosen, p) && Clear(pairs, rows, advice, p) && advice.judge(p) == Some(true))
    ensures Progress(pairs, rows, advice, steps, chosen, p + 1,
                     if Considered(pairs, rows, steps, chosen, p) then examined + 1 else examined,
                     if Considered(pairs, rows, steps, chosen, p) && Clear(pairs, rows, advice, p) && !advice.storedVerdict(p)
                     then asked + 1 else asked)
  {
    hide Considered;
    hide Clear;
    hide Counted;
    CountedNext(pairs, rows, advice, steps, chosen, p, examined, asked);
  }

  /** A pair that is. */
  lemma NextMerge(pairs: seq<Pair>, rows: map<Id, Product>, advice: Advice, steps: seq<Step>, chosen: seq<nat>, p: nat, examined: nat, asked: nat,
                  step: Step)
    requires p < |pairs| && Progress(pairs, rows, advice, steps, chosen, p, examined, asked)
    requires Considered(pairs, rows, steps, chosen, p) && Clear(pairs, rows, advice, p) && advice.judge(p) == Some(true)
    ensures Progress(pairs, rows, advice, steps + [step], chosen + [p], p + 1, examined + 1, if advice.storedVerdict(p) then asked else asked + 1)
    ensures forall id :: MergedAway(steps + [step], id) <==> MergedAway(steps, id) || id == step.merged
  {
    CountedNext(pairs, rows, advice, steps, chosen, p, examined, asked);
    hide Clear;
    forall q: nat | q <= p
      ensures Considered(pairs, rows, steps + [step], chosen + [p], q) <==> Considered(pairs, rows, steps, chosen, q)
    {
      ConsideredStays(pairs, rows, steps, chosen, p, step, q);
    }
    hide Considered;
    assert Looked(pairs, rows, steps + [step], chosen + [p], p + 1) == Looked(pairs, rows, steps, chosen, p + 1);
    assert Judged(pairs, rows, advice, steps + [step], chosen + [p], p + 1) == Judged(pairs, rows, advice, steps, chosen, p + 1);
    AwayNext(steps, step);
  }

  lemma AwayNext(steps: seq<Step>, step: Step)
    ensures forall id :: MergedAway(steps + [step], id) <==> MergedAway(steps, id) || id == step.merged
  {
    var longer := steps + [step];
    assert longer[|steps|] == step && forall i | 0 <= i < |steps| :: longer[i] == steps[i];
  }

  lemma ConsideredStays(pairs: seq<Pair>, rows: map<Id, Product>, steps: seq<Step>, chosen: seq<nat>, p: nat, step: Step, q: nat)
    requires |chosen| == |steps| && q <= p
    ensures Considered(pairs, rows, steps + [step], chosen + [p], q) <==> Considered(pairs, rows, steps, chosen, q)
  {
    assert forall i | 0 <= i < |steps| :: (steps + [step])[i] == steps[i] && (chosen + [p])[i] == chosen[i];
  }

  /** A pair the guards let through and the judge approved, and the merge it leads to. */
  ghost predicate Approved(pairs: seq<Pair>, rows: map<Id, Product>, advice: Advice, p: nat, step: Step)
    requires p < |pairs|
  {
    var pair := pairs[p];
    && pair.a in rows && pair.b in rows
    && step.kept == (if rows[pair.a].createdAt <= rows[pair.b].createdAt then pair.a else pair.b)
    && step.merged == (if rows[pair.a].createdAt <= rows[pair.b].createdAt then pair.b else pair.a)
    && step.keepLoaded == rows[step.kept] && step.mergeLoaded == rows[step.merged]
    && !advice.hardConflict(rows[pair.a], rows[pair.b])
    && !advice.accessory(rows[pair.a].title) && !advice.accessory(rows[pair.b].title)
    && advice.judge(p) == Some(true)
  }

  lemma ApprovedNow(pairs: seq<Pair>, rows: map<Id, Product>, advice: Advice, p: nat, step: Step)
    requires p < |pairs| && pairs[p].a in rows && pairs[p].b in rows
    requires !advice.hardConflict(rows[pairs[p].a], rows[pairs[p].b]) && advice.judge(p) == Some(true)
    requires !advice.accessory(rows[pairs[p].a].title) && !advice.accessory(rows[pairs[p].b].title)
    requires var older := rows[pairs[p].a].createdAt <= rows[pairs[p].b].createdAt;
             var kept, merged := if older then pairs[p].a else pairs[p].b, if older then pairs[p].b else pairs[p].a;
             step == Step(kept, merged, rows[kept], rows[merged], Ai)
    ensures Approved(pairs, rows, advice, p, step)
  {
  }

  lemma ApprovedWereRead(t: Tables, pairs: seq<Pair>, rows: map<Id, Product>, advice: Advice, chosen: seq<nat>, steps: seq<Step>)
    requires |chosen| == |steps|
    requires forall i | 0 <= i < |steps| :: chosen[i] < |pairs| && Approved(pairs, rows, advice, chosen[i], steps[i])
    requires forall id <- rows :: id in t.products && t.products[id] == rows[id]
    ensures ReadBefore(t, steps)
  {
  }

  /** The tables are those after the merges so far, and the rows read at first still tell what the products grew from. */
  ghost predicate OnTrack(t0: Tables, t: Tables, steps: seq<Step>, rows: map<Id, Product>, consumed: set<Id>) {
    && IsRun(t0, steps) && t == MergeAll(t0, steps) && t.products.Keys == t0.products.Keys - consumed
    && rows.Keys <= t0.products.Keys && forall id <- rows | id !in consumed :: LoadedFrom(rows[id], t.products[id])
  }

  lemma TrackExtends(t0: Tables, t: Tables, steps: seq<Step>, step: Step, rows: map<Id, Product>, consumed: set<Id>)
    requires OnTrack(t0, t, steps, rows, consumed)
    requires step.kept in rows && step.merged in rows && step.kept != step.merged && step.kept !in consumed && step.merged !in consumed
    requires step.keepLoaded == rows[step.kept] && step.mergeLoaded == rows[step.merged]
    requires rows[step.kept].createdAt <= rows[step.merged].createdAt
    ensures step.kept in t.products
    ensures OnTrack(t0, Merged(t, step.kept, step.merged, step.keepLoaded, step.mergeLoaded, step.decidedBy), steps + [step], rows,
                    consumed + {step.merged})
  {
    hide IsRun;
    hide MergeAll;
    hide Merged;
    hide LoadedFrom;
    StepExtends(t0, steps, step, rows, consumed);
  }

  lemma TrackEnds(t0: Tables, t: Tables, steps: seq<Step>, rows: map<Id, Product>, consumed: set<Id>)
    requires OnTrack(t0, t, steps, rows, consumed)
    ensures IsRun(t0, steps) && t == MergeAll(t0, steps)
  {
    hide IsRun;
    hide MergeAll;
  }

  lemma NoSteps(t: Tables, rows: map<Id, Product>)
    requires forall id <- rows :: id in t.products && t.products[id] == rows[id]
    ensures OnTrack(t, t, [], rows, {})
  {
  }

  /** The loaded rows stay what the products grew from. */
  lemma StepKeepsLoaded(t: Tables, step: Step, rows: map<Id, Product>, consumed: set<Id>)
    requires StepAllowed(t, step) && step.kept in rows && step.kept !in consumed && step.keepLoaded == rows[step.kept]
    requires rows.Keys <= t.products.Keys + consumed && forall id <- rows | id !in consumed :: LoadedFrom(rows[id], t.products[id])
    ensures Apply(t, step).products.Keys == t.products.Keys - {step.merged}
    ensures forall id <- rows | id !in consumed && id != step.merged :: LoadedFrom(rows[id], Apply(t, step).products[id])
  {
  }

  /** The next merge continues the run. */
  lemma StepExtends(t0: Tables, steps: seq<Step>, step: Step, rows: map<Id, Product>, consumed: set<Id>)
    requires IsRun(t0, steps)
    requires MergeAll(t0, steps).products.Keys == t0.products.Keys - consumed
    requires rows.Keys <= t0.products.Keys && forall id <- rows | id !in consumed :: LoadedFrom(rows[id], MergeAll(t0, steps).products[id])
    requires step.kept in rows && step.merged in rows && step.kept != step.merged && step.kept !in consumed && step.merged !in consumed
    requires step.keepLoaded == rows[step.kept] && step.mergeLoaded == rows[step.merged]
    requires rows[step.kept].createdAt <= rows[step.merged].createdAt
    ensures IsRun(t0, steps + [step])
    ensures step.kept in MergeAll(t0, steps).products
    ensures MergeAll(t0, steps + [step])
            == Merged(MergeAll(t0, steps), step.kept, step.merged, step.keepLoaded, step.mergeLoaded, step.decidedBy)
    ensures var after := MergeAll(t0, steps + [step]);
            && after.products.Keys == t0.products.Keys - (consumed + {step.merged})
            && forall id <- rows | id !in consumed && id != step.merged :: LoadedFrom(rows[id], after.products[id])
  {
    hide Merged;
    var t := MergeAll(t0, steps);
    assert Init(steps + [step]) == steps;
    assert LoadedFrom(step.keepLoaded, t.products[step.kept]) && LoadedFrom(step.mergeLoaded, t.products[step.merged]);
    assert StepAllowed(t, step);
    StepKeepsLoaded(t, step, rows, consumed);
  }

  // ----- the review queue

  function PendingFrom(merges: seq<Merge>, n: nat): seq<nat>
    requires n <= |merges|
    decreases |merges| - n
  {
    if n == |merges| then []
    else
      (if merges[n].decidedBy == Rules && merges[n].aiVerdict.None? && !merges[n].undone then [n] else [])
      + PendingFrom(merges, n + 1)
  }

  /** The first `limit` unreviewed merges of the rules, oldest first. */
  function Pending(merges: seq<Merge>, limit: nat): seq<nat> {
    var all := PendingFrom(merges, 0);
    if |all| <= limit then all else all[..limit]
  }

  /** Increasing log positions, from `low` on, of merges that have not been undone. */
  ghost predicate LivePositions(merges: seq<Merge>, queue: seq<nat>, low: nat) {
    Live(merges, queue, low) && Increasing(queue)
  }

  ghost predicate Live(merges: seq<Merge>, queue: seq<nat>, low: nat) {
    forall k | 0 <= k < |queue| :: low <= queue[k] < |merges| && !merges[queue[k]].undone
  }

  ghost predicate Increasing(queue: seq<nat>) {
    forall j, k | 0 <= j < k < |queue| :: queue[j] < queue[k]
  }

  lemma {:induction false} PendingFromMeaning(merges: seq<Merge>, n: nat)
    requires n <= |merges|
    ensures LivePositions(merges, PendingFrom(merges, n), n)
    decreases |merges| - n
  {
    hide LivePositions;
    if n < |merges| {
      var rest := PendingFrom(merges, n + 1);
      PendingFromMeaning(merges, n + 1);
      if merges[n].decidedBy == Rules && merges[n].aiVerdict.None? && !merges[n].undone {
        Prepend(merges, rest, n);
      } else {
        assert [] + rest == rest;
        Lower(merges, rest, n);
      }
    } else {
      NothingPending(merges, n);
    }
  }

  lemma NothingPending(merges: seq<Merge>, n: nat)
    ensures LivePositions(merges, [], n)
  {
  }

  lemma Lower(merges: seq<Merge>, rest: seq<nat>, n: nat)
    requires LivePositions(merges, rest, n + 1)
    ensures LivePositions(merges, rest, n)
  {
    hide Increasing;
  }

  lemma Prepend(merges: seq<Merge>, rest: seq<nat>, n: nat)
    requires n < |merges| && !merges[n].undone && LivePositions(merges, rest, n + 1)
    ensures LivePositions(merges, [n] + rest, n)
  {
  }

  lemma PendingMeaning(merges: seq<Merge>, limit: nat)
    ensures LivePositions(merges, Pending(merges, limit), 0)
    ensures forall k | 0 <= k < |Pending(merges, limit)| :: Pending(merges, limit)[k] < |merges|
  {
    PendingFromMeaning(merges, 0);
  }

  ghost predicate Unreviewed(merge: Merge) {
    merge.decidedBy == Rules && merge.aiVerdict.None? && !merge.undone
  }

  /** All unreviewed merges, oldest first, or the first `limit` of them. */
  ghost predicate FirstUnreviewed(merges: seq<Merge>, queue: seq<nat>, limit: nat) {
    && Increasing(queue)
    && (forall n <- queue :: n < |merges| && Unreviewed(merges[n]))
    && forall n: nat | n < |merges| && Unreviewed(merges[n]) && n !in queue :: |queue| == limit && forall q <- queue :: q < n
  }

  lemma {:induction false} PendingFromExactly(merges: seq<Merge>, n: nat)
    requires n <= |merges|
    ensures forall k: nat :: k in PendingFrom(merges, n) <==> n <= k < |merges| && Unreviewed(merges[k])
    decreases |merges| - n
  {
    if n < |merges| { PendingFromExactly(merges, n + 1); }
  }

  lemma PendingExactly(merges: seq<Merge>, limit: nat)
    ensures |Pending(merges, limit)| <= limit && FirstUnreviewed(merges, Pending(merges, limit), limit)
  {
    hide Unreviewed;
    var all := PendingFrom(merges, 0);
    PendingFromExactly(merges, 0);
    PendingFromMeaning(merges, 0);
    hide PendingFrom;
    if |all| > limit {
      forall n | n in all && n !in all[..limit] ensures forall q <- all[..limit] :: q < n {
        var i :| 0 <= i < |all| && all[i] == n;
        assert i >= limit;
      }
    }
  }

  /** The log rows answered for carry the verdict, and are undone unless it was yes; the others are as they were. */
  ghost predicate Answered(before: seq<Merge>, after: seq<Merge>, answered: seq<nat>, judge: nat -> Option<bool>) {
    && |after| == |before|
    && forall n: nat | n < |before| ::
         after[n] == if n !in answered then before[n]
                     else if judge(n) == Some(true) then before[n].(aiVerdict := Some(true))
                     else before[n].(aiVerdict := Some(false), undone := true)
  }

  /** The log after the first `k` answers. */
  lemma {:induction false} ReviewedLog(t: Tables, queue: seq<nat>, k: nat, judge: nat -> Option<bool>, newRows: seq<map<Id, Id>>)
    requires |newRows| == |t.merges| && Increasing(queue) && k <= |queue| && forall j | 0 <= j < |queue| :: queue[j] < |t.merges|
    ensures Answered(t.merges, ReviewAll(t, queue[..k], judge, newRows).merges, queue[..k], judge)
  {
    if k > 0 {
      assert queue[..k][..k - 1] == queue[..k - 1];
      ReviewedLog(t, queue, k - 1, judge, newRows);
      var n := queue[k - 1];
      assert n !in queue[..k - 1];
      assert queue[..k] == queue[..k - 1] + [n];
      AnswerLogged(ReviewAll(t, queue[..k - 1], judge, newRows), n, judge(n), newRows[n]);
      hide Review;
    }
  }

  lemma AnswerLogged(t: Tables, n: nat, verdict: Option<bool>, newRows: map<Id, Id>)
    requires n < |t.merges|
    ensures Review(t, n, verdict, newRows).merges
            == t.merges[n := if verdict == Some(true) then t.merges[n].(aiVerdict := Some(true))
                             else t.merges[n].(aiVerdict := Some(false), undone := true)]
  {
  }

  /** New row ids for every logged merge: one per dropped user, never used, and none given twice. */
  ghost predicate FreshSupply(t: Tables, newRows: seq<map<Id, Id>>) {
    && |newRows| == |t.merges|
    && (forall n | 0 <= n < |newRows| :: Fresh(t, t.merges[n].droppedWatchers, newRows[n]))
    && (forall m, n | 0 <= m < n < |newRows| :: newRows[m].Keys !! newRows[n].Keys)
  }

  lemma SupplySize(t: Tables, newRows: seq<map<Id, Id>>)
    requires FreshSupply(t, newRows)
    ensures |newRows| == |t.merges|
  {
  }

  /** One answer of the judge: the merge is approved, or undone. */
  ghost function Review(t: Tables, n: nat, verdict: Option<bool>, newRows: map<Id, Id>): Tables
    requires n < |t.merges|
  {
    if verdict == Some(true) then t.(merges := t.merges[n := t.merges[n].(aiVerdict := Some(true))])
    else Undone(t, n, newRows)
  }

  lemma OneAnswer(t: Tables, n: nat, verdict: bool, newRows: map<Id, Id>)
    requires n < |t.merges|
    ensures Review(t, n, Some(verdict), newRows)
            == if verdict then t.(merges := t.merges[n := t.merges[n].(aiVerdict := Some(true))]) else Undone(t, n, newRows)
  {
  }

  ghost function ReviewAll(t: Tables, queue: seq<nat>, judge: nat -> Option<bool>, newRows: seq<map<Id, Id>>): (after: Tables)
    requires |newRows| == |t.merges| && forall k | 0 <= k < |queue| :: queue[k] < |t.merges|
    ensures |after.merges| == |t.merges|
  {
    if queue == [] then t
    else
      var n := queue[|queue| - 1];
      Review(ReviewAll(t, queue[..|queue| - 1], judge, newRows), n, judge(n), newRows[n])
  }

  lemma NothingAnswered(t: Tables, judge: nat -> Option<bool>, newRows: seq<map<Id, Id>>)
    requires |newRows| == |t.merges|
    ensures ReviewAll(t, [], judge, newRows) == t
  {
  }

  lemma NextAnswer(t: Tables, queue: seq<nat>, k: nat, judge: nat -> Option<bool>, newRows: seq<map<Id, Id>>)
    requires |newRows| == |t.merges| && k < |queue| && forall j | 0 <= j < |queue| :: queue[j] < |t.merges|
    ensures ReviewAll(t, queue[..k + 1], judge, newRows)
            == Review(ReviewAll(t, queue[..k], judge, newRows), queue[k], judge(queue[k]), newRows[queue[k]])
  {
    hide Review;
    assert queue[..k + 1][..k] == queue[..k];
  }

  /** What reviewing the first `k` leaves for the rest: not undone, and its row ids still unused. */
  lemma {:induction false} ReviewLeaves(t: Tables, queue: seq<nat>, k: nat, n: nat, judge: nat -> Option<bool>, newRows: seq<map<Id, Id>>)
    requires FreshSupply(t, newRows) && LivePositions(t.merges, queue, 0) && k <= |queue|
    requires n < |t.merges| && forall j | 0 <= j < k :: queue[j] != n
    ensures var after := ReviewAll(t, queue[..k], judge, newRows);
            && after.merges[n] == t.merges[n]
            && (forall row <- newRows[n] :: row !in after.watches)
            && (forall m | 0 <= m < |t.merges| :: after.merges[m].movedWatches == t.merges[m].movedWatches)
    decreases k
  {
    if k > 0 {
      assert queue[..k][..k - 1] == queue[..k - 1];
      ReviewLeaves(t, queue, k - 1, n, judge, newRows);
      assert newRows[queue[k - 1]].Keys !! newRows[n].Keys;
    }
  }

  lemma ReviewKeeps(t: Tables, queue: seq<nat>, k: nat, judge: nat -> Option<bool>, newRows: seq<map<Id, Id>>)
    requires FreshSupply(t, newRows) && LivePositions(t.merges, queue, 0) && k < |queue|
    requires Consistent(ReviewAll(t, queue[..k], judge, newRows)) && judge(queue[k]).Some?
    ensures Consistent(Review(ReviewAll(t, queue[..k], judge, newRows), queue[k], judge(queue[k]), newRows[queue[k]]))
  {
    var n, soFar := queue[k], ReviewAll(t, queue[..k], judge, newRows);
    ReviewLeaves(t, queue, k, n, judge, newRows);
    if judge(n) == Some(true) {
      ApprovalKeeps(soFar, n);
    } else {
      assert Fresh(t, t.merges[n].droppedWatchers, newRows[n]);
      UndoneConsistent(soFar, n, newRows[n]);
    }
  }

  lemma ApprovalKeeps(t: Tables, n: nat)
    requires Consistent(t) && n < |t.merges|
    ensures Consistent(t.(merges := t.merges[n := t.merges[n].(aiVerdict := Some(true))]))
  {
    var after := t.(merges := t.merges[n := t.merges[n].(aiVerdict := Some(true))]);
    forall m | 0 <= m < |after.merges| && !after.merges[m].undone ensures Undoable(after, after.merges[m]) {
      assert Undoable(t, t.merges[m]);
    }
  }
}
