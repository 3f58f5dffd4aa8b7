/**
 * Seeding the catalogue in batches with saved cursors, by a process that may
 * die before any statement and be started again, any number of times.
 *
 * A batch is stored by one insert that ignores rows whose keys are taken, and
 * its cursor is saved afterwards: a saved cursor never runs ahead of the table.
 */
module Seeding {

  type Id = nat

  /** A row and the unique key values it occupies; the rest of its columns are one value. */
  datatype Row = Row(keys: set<Id>, content: Id)

  // ----- insert or ignore

  predicate Blocked(table: seq<Row>, row: Row) {
    exists i :: 0 <= i < |table| && !(table[i].keys !! row.keys)
  }

  function Insert(table: seq<Row>, row: Row): seq<Row> {
    if Blocked(table, row) then table else table + [row]
  }

  /** One INSERT ... SELECT ... ON CONFLICT DO NOTHING over all the rows. */
  function InsertAll(table: seq<Row>, rows: seq<Row>): (after: seq<Row>)
    ensures table <= after
  {
    if rows == [] then table else Insert(InsertAll(table, rows[..|rows| - 1]), rows[|rows| - 1])
  }

  predicate OnePerKey(table: seq<Row>) {
    forall i, j :: 0 <= i < j < |table| ==> table[i].keys !! table[j].keys
  }

  predicate Keyed(rows: seq<Row>) {
    forall i :: 0 <= i < |rows| ==> rows[i].keys != {}
  }

  lemma {:induction false} InsertAllAppends(table: seq<Row>, first: seq<Row>, second: seq<Row>)
    ensures InsertAll(table, first + second) == InsertAll(InsertAll(table, first), second)
  {
    if second == [] {
      assert first + second == first;
    } else {
      var n := |second| - 1;
      InsertAllAppends(table, first, second[..n]);
      assert (first + second)[..|first| + n] == first + second[..n];
    }
  }

  lemma BlockedStays(table: seq<Row>, after: seq<Row>, row: Row)
    requires table <= after && Blocked(table, row)
    ensures Blocked(after, row)
  {
    var i :| 0 <= i < |table| && !(table[i].keys !! row.keys);
    assert after[i] == table[i];
  }

  /** Once inserted, a row is either stored or kept out by one that is. */
  lemma {:induction false} InsertedIsBlocked(table: seq<Row>, rows: seq<Row>, j: nat)
    requires j < |rows| && Keyed(rows)
    ensures Blocked(InsertAll(table, rows), rows[j])
  {
    var before := InsertAll(table, rows[..|rows| - 1]);
    var after := InsertAll(table, rows);
    if j < |rows| - 1 {
      InsertedIsBlocked(table, rows[..|rows| - 1], j);
      BlockedStays(before, after, rows[j]);
    } else if !Blocked(before, rows[j]) {
      var key :| key in rows[j].keys;
      assert key in after[|before|].keys * rows[j].keys;
    }
  }

  lemma {:induction false} BlockedAreIgnored(table: seq<Row>, rows: seq<Row>)
    requires forall j :: 0 <= j < |rows| ==> Blocked(table, rows[j])
    ensures InsertAll(table, rows) == table
  {
    if rows != [] { BlockedAreIgnored(table, rows[..|rows| - 1]); }
  }

  /** A batch that starts no later than what is stored leaves the table as if all had been inserted once, in order. */
  lemma ResumeInserts(table: seq<Row>, plan: seq<Row>, stored: nat, from: nat, until: nat)
    requires from <= stored <= |plan| && from <= until <= |plan| && Keyed(plan)
    ensures InsertAll(InsertAll(table, plan[..stored]), plan[from..until])
            == InsertAll(table, plan[..if until < stored then stored else until])
  {
    var now := InsertAll(table, plan[..stored]);
    var again := plan[from..if until < stored then until else stored];
    forall j | 0 <= j < |again| ensures Blocked(now, again[j]) {
      assert plan[..stored][from + j] == again[j];
      InsertedIsBlocked(table, plan[..stored], from + j);
    }
    BlockedAreIgnored(now, again);
    if until > stored {
      assert plan[from..until] == again + plan[stored..until];
      InsertAllAppends(now, again, plan[stored..until]);
      assert plan[..until] == plan[..stored] + plan[stored..until];
      InsertAllAppends(table, plan[..stored], plan[stored..until]);
    }
  }

  lemma {:induction false} InsertKeepsOnePerKey(table: seq<Row>, rows: seq<Row>)
    requires OnePerKey(table)
    ensures OnePerKey(InsertAll(table, rows))
  {
    if rows != [] {
      InsertKeepsOnePerKey(table, rows[..|rows| - 1]);
    }
  }

  /** Rows whose keys are all new are stored exactly, in order; then nothing is ignored. */
  lemma {:induction false} NewRowsAreStored(table: seq<Row>, rows: seq<Row>)
    requires OnePerKey(table + rows)
    ensures InsertAll(table, rows) == table + rows
  {
    if rows != [] {
      var n := |rows| - 1;
      assert table + rows == (table + rows[..n]) + [rows[n]];
      assert forall i :: 0 <= i < |table + rows[..n]| ==> (table + rows[..n])[i] == (table + rows)[i];
      NewRowsAreStored(table, rows[..n]);
      assert (table + rows)[|table| + n] == rows[n];
    }
  }

  // ----- what is to be seeded

  /** How many products, stores and listings, and the rows their factories make of (product, store, index). */
  datatype Config = Config(products: nat, stores: nat, listingsPerProduct: nat, challenges: nat,
                           listing: (nat, nat, nat) -> Row, challenge: (nat, nat, nat) -> Row)

  datatype Stage = Listings | ChallengeListings

  ghost predicate Usable(config: Config) {
    config.stores > 0 && (config.challenges > 0 ==> config.products > 0) && RowsHaveKeys(config)
  }

  ghost predicate RowsHaveKeys(config: Config) {
    && (forall p, s, i :: config.listing(p, s, i).keys != {})
    && (forall p, s, i :: config.challenge(p, s, i).keys != {})
  }

  /** A product's listing number `index`: the stores are taken in turn, each product starting one store further. */
  function ListingAt(config: Config, product: nat, index: nat): Row
    requires config.stores > 0
  {
    config.listing(product, (product + index) % config.stores, index)
  }

  /** Challenges go round both the products (there are some when there are challenges) and the stores. */
  function ChallengeAt(config: Config, index: nat): Row
    requires config.stores > 0
  {
    config.challenge(if config.products == 0 then 0 else index % config.products, index % config.stores, index)
  }

  /** The first `n` listings of a product. */
  function ListingsOf(config: Config, product: nat, n: nat): seq<Row>
    requires config.stores > 0
  {
    if n == 0 then [] else ListingsOf(config, product, n - 1) + [ListingAt(config, product, n - 1)]
  }

  /** The rows that one step of a stage's cursor stands for. */
  function ItemRows(config: Config, stage: Stage, item: nat): seq<Row>
    requires config.stores > 0
  {
    if stage == Listings then ListingsOf(config, item, config.listingsPerProduct) else [ChallengeAt(config, item)]
  }

  function StageRows(config: Config, stage: Stage, n: nat): seq<Row>
    requires config.stores > 0
  {
    if n == 0 then [] else StageRows(config, stage, n - 1) + ItemRows(config, stage, n - 1)
  }

  function Target(config: Config, stage: Stage): nat {
    if stage == Listings then config.products else config.challenges
  }

  /** Every row to be seeded, in the order of a run that is not interrupted. */
  ghost function Plan(config: Config): (plan: seq<Row>)
    requires Usable(config)
  {
    StageRows(config, Listings, config.products) + StageRows(config, ChallengeListings, config.challenges)
  }

  /** How many planned rows come before an item of a stage. */
  ghost function Before(config: Config, stage: Stage, item: nat): nat
    requires Usable(config)
  {
    (if stage == Listings then 0 else |StageRows(config, Listings, config.products)|) + |StageRows(config, stage, item)|
  }

  /** The batch holds the rows of a stage's items from `start` to `item`. */
  ghost predicate Pending(config: Config, stage: Stage, start: nat, item: nat, batch: seq<Row>)
    requires Usable(config)
  {
    start <= item && StageRows(config, stage, item) == StageRows(config, stage, start) + batch
  }

  lemma {:induction false} ListingsOfKeyed(config: Config, product: nat, n: nat)
    requires Usable(config)
    ensures Keyed(ListingsOf(config, product, n))
  {
    if n > 0 { ListingsOfKeyed(config, product, n - 1); }
  }

  lemma {:induction false} StageRowsKeyed(config: Config, stage: Stage, n: nat)
    requires Usable(config)
    ensures Keyed(StageRows(config, stage, n))
  {
    if n > 0 {
      StageRowsKeyed(config, stage, n - 1);
      if stage == Listings { ListingsOfKeyed(config, n - 1, config.listingsPerProduct); }
    }
  }

  lemma PlanKeyed(config: Config)
    requires Usable(config)
    ensures Keyed(Plan(config))
  {
    StageRowsKeyed(config, Listings, config.products);
    StageRowsKeyed(config, ChallengeListings, config.challenges);
  }

  lemma {:induction false} StageRowsGrow(config: Config, stage: Stage, n: nat, m: nat)
    requires Usable(config) && n <= m
    ensures StageRows(config, stage, n) <= StageRows(config, stage, m)
  {
    if n < m { StageRowsGrow(config, stage, n, m - 1); }
  }

  lemma NewBatch(config: Config, stage: Stage, item: nat)
    requires Usable(config)
    ensures Pending(config, stage, item, item, [])
  {
  }

  lemma NothingPending(config: Config, stage: Stage, start: nat, item: nat, batch: seq<Row>)
    requires Usable(config) && Pending(config, stage, start, item, batch) && |batch| == 0
    ensures Before(config, stage, start) == Before(config, stage, item)
  {
  }

  lemma NextPending(config: Config, stage: Stage, start: nat, item: nat, batch: seq<Row>)
    requires Usable(config) && Pending(config, stage, start, item, batch)
    ensures Pending(config, stage, start, item + 1, batch + ItemRows(config, stage, item))
  {
    var longer := batch + ItemRows(config, stage, item);
    assert StageRows(config, stage, item + 1) == StageRows(config, stage, start) + longer;
  }

  /** A pending batch is a stretch of the plan, between the places of its first and last cursor. */
  lemma PendingIsPlanned(config: Config, stage: Stage, start: nat, item: nat, batch: seq<Row>)
    requires Usable(config) && item <= Target(config, stage) && Pending(config, stage, start, item, batch)
    ensures Before(config, stage, start) + |batch| == Before(config, stage, item) <= |Plan(config)|
    ensures Plan(config)[Before(config, stage, start)..Before(config, stage, item)] == batch
  {
    StageRowsGrow(config, stage, item, Target(config, stage));
    var listings := StageRows(config, Listings, config.products);
    var rows := StageRows(config, stage, item);
    if stage == Listings {
      assert Plan(config)[..|rows|] == rows;
    } else {
      assert Plan(config)[..|listings| + |rows|] == listings + rows;
    }
  }

  lemma StagesMeet(config: Config)
    requires Usable(config)
    ensures Before(config, ChallengeListings, 0) == Before(config, Listings, config.products)
    ensures Before(config, ChallengeListings, config.challenges) == |Plan(config)|
    ensures Target(config, Listings) == config.products && Target(config, ChallengeListings) == config.challenges
  {
  }

  function ReadCursor(cursors: map<Stage, nat>, stage: Stage): nat {
    if stage in cursors then cursors[stage] else 0
  }

  /** The listing table holds the first `stored` planned rows on top of `initial`, and no saved cursor is ahead of it. */
  ghost predicate Behind(config: Config, initial: seq<Row>, listings: seq<Row>, cursors: map<Stage, nat>, stored: nat)
    requires Usable(config)
  {
    && stored <= |Plan(config)|
    && listings == InsertAll(initial, Plan(config)[..stored])
    && (forall stage <- cursors :: cursors[stage] <= Target(config, stage) && Before(config, stage, cursors[stage]) <= stored)
  }

  lemma CursorIsBehind(config: Config, stage: Stage, initial: seq<Row>, listings: seq<Row>, cursors: map<Stage, nat>, stored: nat)
    requires Usable(config) && Behind(config, initial, listings, cursors, stored)
    requires stage == ChallengeListings ==> Before(config, Listings, config.products) <= stored
    ensures ReadCursor(cursors, stage) <= Target(config, stage) && Before(config, stage, ReadCursor(cursors, stage)) <= stored
  {
    StagesMeet(config);
  }

  lemma BatchStored(config: Config, stage: Stage, start: nat, cursor: nat, batch: seq<Row>,
                    initial: seq<Row>, listings: seq<Row>, cursors: map<Stage, nat>, stored: nat)
    requires Usable(config) && Behind(config, initial, listings, cursors, stored) && Before(config, stage, start) <= stored
    requires cursor <= Target(config, stage) && Pending(config, stage, start, cursor, batch)
    ensures var planned := Before(config, stage, cursor);
            Behind(config, initial, InsertAll(listings, batch), cursors, if stored < planned then planned else stored)
  {
    hide Usable;
    hide Plan;
    hide Before;
    hide Pending;
    hide InsertAll;
    hide Keyed;
    hide Target;
    PendingIsPlanned(config, stage, start, cursor, batch);
    PlanKeyed(config);
    ResumeInserts(initial, Plan(config), stored, Before(config, stage, start), Before(config, stage, cursor));
  }

  lemma AllStored(config: Config, initial: seq<Row>, listings: seq<Row>, cursors: map<Stage, nat>, stored: nat)
    requires Usable(config) && Behind(config, initial, listings, cursors, stored) && |Plan(config)| <= stored
    ensures listings == InsertAll(initial, Plan(config))
  {
    hide Usable;
    hide Plan;
    hide InsertAll;
    assert Plan(config)[..|Plan(config)|] == Plan(config);
  }

  lemma CursorSaved(config: Config, stage: Stage, cursor: nat,
                    initial: seq<Row>, listings: seq<Row>, cursors: map<Stage, nat>, stored: nat)
    requires Usable(config) && Behind(config, initial, listings, cursors, stored)
    requires cursor <= Target(config, stage) && Before(config, stage, cursor) <= stored
    ensures Behind(config, initial, listings, cursors[stage := cursor], stored)
  {
    hide Usable;
    hide Plan;
    hide Before;
    hide InsertAll;
    hide Target;
  }

  // ----- a run that may die

  // ----- the planned rows, one by one

  lemma {:induction false} ListingsOfAt(config: Config, product: nat, n: nat)
    requires config.stores > 0
    ensures |ListingsOf(config, product, n)| == n
    ensures forall i: nat :: i < n ==> ListingsOf(config, product, n)[i] == config.listing(product, (product + i) % config.stores, i)
  {
    if n > 0 { ListingsOfAt(config, product, n - 1); }
  }

  function Times(a: nat, b: nat): nat {
    a * b
  }

  lemma {:induction false} ListingRows(config: Config, n: nat)
    requires config.stores > 0
    ensures |StageRows(config, Listings, n)| == Times(n, config.listingsPerProduct)
  {
    if n > 0 {
      ListingRows(config, n - 1);
      ListingsOfAt(config, n - 1, config.listingsPerProduct);
      assert Times(n, config.listingsPerProduct) == Times(n - 1, config.listingsPerProduct) + config.listingsPerProduct;
    }
  }

  lemma {:induction false} ListingRowAt(config: Config, n: nat, p: nat, i: nat)
    requires config.stores > 0 && p < n && i < config.listingsPerProduct
    ensures Times(p, config.listingsPerProduct) + i < |StageRows(config, Listings, n)|
    ensures StageRows(config, Listings, n)[Times(p, config.listingsPerProduct) + i] == config.listing(p, (p + i) % config.stores, i)
  {
    hide Times;
    ListingRows(config, n - 1);
    ListingsOfAt(config, n - 1, config.listingsPerProduct);
    if p < n - 1 { ListingRowAt(config, n - 1, p, i); }
  }

  lemma {:induction false} ChallengeRowAt(config: Config, n: nat, i: nat)
    requires config.stores > 0 && config.products > 0
    ensures |StageRows(config, ChallengeListings, n)| == n
    ensures i < n ==> StageRows(config, ChallengeListings, n)[i] == config.challenge(i % config.products, i % config.stores, i)
  {
    if n > 0 { ChallengeRowAt(config, n - 1, i); }
  }

  /**
   * The whole plan: product by product, each with its listings at consecutive
   * stores, the first product's from the first store on, the next product's from
   * one store further; then the challenges, round all products and all stores.
   */
  lemma PlanInFull(config: Config, p: nat, i: nat)
    requires Usable(config)
    ensures |Plan(config)| == Times(config.products, config.listingsPerProduct) + config.challenges
    ensures p < config.products && i < config.listingsPerProduct ==>
              && Times(p, config.listingsPerProduct) + i < Times(config.products, config.listingsPerProduct)
              && Plan(config)[Times(p, config.listingsPerProduct) + i] == config.listing(p, (p + i) % config.stores, i)
    ensures i < config.challenges ==>
              Plan(config)[Times(config.products, config.listingsPerProduct) + i]
              == config.challenge(i % config.products, i % config.stores, i)
  {
    ListingRows(config, config.products);
    if p < config.products && i < config.listingsPerProduct { ListingRowAt(config, config.products, p, i); }
    if config.challenges > 0 { ChallengeRowAt(config, config.challenges, i); }
    hide StageRows;
    hide Times;
  }

  // ----- when batches are stored

  ghost function RowsBetween(config: Config, stage: Stage, from: nat, upTo: nat): int
    requires Usable(config)
  {
    |StageRows(config, stage, upTo)| - |StageRows(config, stage, from)|
  }

  /** A cursor saved after a batch from `from` on: the last item filled the batch, or ends the stage. */
  ghost predicate EndsBatch(config: Config, stage: Stage, batchSize: nat, from: nat, cursor: nat)
    requires Usable(config)
  {
    && from < cursor <= Target(config, stage)
    && (cursor - 1 == from || RowsBetween(config, stage, from, cursor - 1) < batchSize)
    && (cursor == Target(config, stage) || RowsBetween(config, stage, from, cursor) >= batchSize)
  }

  ghost predicate FullBatches(config: Config, stage: Stage, batchSize: nat, start: nat, saves: seq<nat>)
    requires Usable(config)
  {
    forall k | 0 <= k < |saves| :: EndsBatch(config, stage, batchSize, BatchStart(start, saves, k), saves[k])
  }

  /** Where the batch of save `k` started. */
  function BatchStart(start: nat, saves: seq<nat>, k: nat): nat
    requires k <= |saves|
  {
    if k == 0 then start else saves[k - 1]
  }

  lemma OneMoreBatch(config: Config, stage: Stage, batchSize: nat, start: nat, saves: seq<nat>, cursor: nat)
    requires Usable(config) && FullBatches(config, stage, batchSize, start, saves)
    requires EndsBatch(config, stage, batchSize, BatchStart(start, saves, |saves|), cursor)
    ensures FullBatches(config, stage, batchSize, start, saves + [cursor])
  {
    hide EndsBatch;
    hide Usable;
    var longer := saves + [cursor];
    forall k | 0 <= k < |longer|
      ensures EndsBatch(config, stage, batchSize, BatchStart(start, longer, k), longer[k])
    {
      assert BatchStart(start, longer, k) == BatchStart(start, saves, k);
      if k < |saves| { assert longer[k] == saves[k]; }
    }
  }

  lemma NoBatches(config: Config, stage: Stage, batchSize: nat, start: nat)
    requires Usable(config)
    ensures FullBatches(config, stage, batchSize, start, [])
  {
  }

  /** A batch that the item before `cursor` has just filled. */
  lemma FilledBatch(config: Config, stage: Stage, batchSize: nat, start: nat, item: nat, before: seq<Row>, batch: seq<Row>)
    requires Usable(config) && item < Target(config, stage)
    requires Pending(config, stage, start, item, before) && Pending(config, stage, start, item + 1, batch)
    requires (item == start || |before| < batchSize) && |batch| >= batchSize
    ensures EndsBatch(config, stage, batchSize, start, item + 1)
  {
  }

  /** What is left over at the end of a stage makes the last batch. */
  lemma LastBatch(config: Config, stage: Stage, batchSize: nat, start: nat, item: nat, batch: seq<Row>)
    requires Usable(config) && item == Target(config, stage) && Pending(config, stage, start, item, batch)
    requires 0 < |batch| && (item == start || |batch| < batchSize)
    ensures EndsBatch(config, stage, batchSize, start, item)
  {
    if item > start { StageRowsGrow(config, stage, item - 1, item); }
  }

  /** A checkpoint one batch size after the one before, or at the end. */
  predicate IsSlice(from: nat, cursor: nat, size: nat, total: nat) {
    from < total && cursor == if from + size < total then from + size else total
  }

  ghost predicate Slices(start: nat, saves: seq<nat>, size: nat, total: nat) {
    forall k | 0 <= k < |saves| :: IsSlice(BatchStart(start, saves, k), saves[k], size, total)
  }

  lemma NoSlices(start: nat, size: nat, total: nat)
    ensures Slices(start, [], size, total) && BatchStart(start, [], 0) == start
  {
  }

  lemma OneMoreSlice(start: nat, saves: seq<nat>, size: nat, total: nat, cursor: nat)
    requires Slices(start, saves, size, total) && IsSlice(BatchStart(start, saves, |saves|), cursor, size, total)
    ensures Slices(start, saves + [cursor], size, total) && BatchStart(start, saves + [cursor], |saves| + 1) == cursor
  {
    hide IsSlice;
    var longer := saves + [cursor];
    forall k | 0 <= k < |longer| ensures IsSlice(BatchStart(start, longer, k), longer[k], size, total) {
      assert BatchStart(start, longer, k) == BatchStart(start, saves, k);
      if k < |saves| { assert longer[k] == saves[k]; }
    }
  }

  /** The tables and checkpoints that outlive the process. */
  class SeedStore {
    var listings: seq<Row>
    var cursors: map<Stage, nat>
    var products: seq<Row>
    var productCursor: nat

    /** Statements are counted as they come; the process dies before those that `dies` names. */
    const dies: nat -> bool
    var clock: nat

    /** How many planned rows have been inserted, whatever the cursors say. */
    ghost var stored: nat
    ghost var storedProducts: nat

    ghost predicate ListingsSound(config: Config, initial: seq<Row>)
      requires Usable(config)
      reads this
    {
      Behind(config, initial, listings, cursors, stored)
    }

    ghost predicate ProductsSound(plan: seq<Row>, initial: seq<Row>)
      reads this
    {
      && productCursor <= storedProducts <= |plan|
      && products == InsertAll(initial, plan[..storedProducts])
    }

    /** Nothing seeded yet. */
    constructor (listings: seq<Row>, products: seq<Row>, dies: nat -> bool)
      ensures this.listings == listings && this.products == products && this.dies == dies && clock == 0
      ensures forall config | Usable(config) :: ListingsSound(config, listings)
      ensures forall plan :: ProductsSound(plan, products)
    {
      this.listings, this.products, this.dies := listings, products, dies;
      cursors, productCursor, clock := map[], 0, 0;
      stored, storedProducts := 0, 0;
    }

    /** The next statement, unless the process dies before it. */
    method Tick() returns (alive: bool)
      modifies this`clock
      ensures clock == old(clock) + 1 && alive == !dies(clock)
    {
      clock := clock + 1;
      alive := !dies(clock);
    }

    /** The process is alive, or has just died. */
    predicate Accounted(alive: bool, since: nat)
      reads this
    {
      since <= clock && (alive || (since < clock && dies(clock)))
    }

    /** Stores a batch of listings and then saves its cursor; the process may die before either. */
    method Flush(config: Config, stage: Stage, cursor: nat, batch: seq<Row>, ghost start: nat, ghost initial: seq<Row>)
      returns (alive: bool, inserted: nat)
      requires Usable(config) && ListingsSound(config, initial)
      requires cursor <= Target(config, stage) && Pending(config, stage, start, cursor, batch) && Before(config, stage, start) <= stored
      modifies this`listings, this`cursors, this`stored, this`clock
      ensures ListingsSound(config, initial) && stored >= old(stored) && Accounted(alive, old(clock))
      ensures cursors == if alive then old(cursors)[stage := cursor] else old(cursors)
      ensures alive ==> Before(config, stage, cursor) <= stored
      ensures alive ==> |listings| == |old(listings)| + inserted
    {
      hide Behind;
      hide Usable;
      hide Target;
      hide Before;
      hide Pending;
      hide InsertAll;
      inserted := 0;
      alive := Tick();
      if !alive { return; }
      BatchStored(config, stage, start, cursor, batch, initial, listings, cursors, stored);
      inserted := |InsertAll(listings, batch)| - |listings|;
      listings := InsertAll(listings, batch);
      if stored < Before(config, stage, cursor) { stored := Before(config, stage, cursor); }
      alive := Tick();
      if !alive { return; }
      CursorSaved(config, stage, cursor, initial, listings, cursors, stored);
      cursors := cursors[stage := cursor];
    }

    /** Adds an item's rows to the batch. */
    method AddItem(config: Config, stage: Stage, item: nat, batch: seq<Row>, ghost start: nat) returns (longer: seq<Row>)
      requires Usable(config) && Pending(config, stage, start, item, batch)
      ensures Pending(config, stage, start, item + 1, longer)
    {
      NextPending(config, stage, start, item, batch);
      longer := batch;
      if stage == ChallengeListings { return longer + [ChallengeAt(config, item)]; }
      var index := 0;
      while index < config.listingsPerProduct
        invariant 0 <= index <= config.listingsPerProduct
        invariant longer == batch + ListingsOf(config, item, index)
      {
        longer := longer + [ListingAt(config, item, index)];
        index := index + 1;
      }
    }

    /**
     * One stage: batches are filled item by item from the saved cursor on, and
     * flushed when they are full and at the end. `saves` are the cursors it saves,
     * and `made` counts the items it makes rows of.
     */
    method RunStage(config: Config, stage: Stage, batchSize: nat, ghost initial: seq<Row>)
      returns (alive: bool, inserted: nat, ghost saves: seq<nat>, ghost made: nat)
      requires Usable(config) && ListingsSound(config, initial)
      requires stage == ChallengeListings ==> Before(config, Listings, config.products) <= stored
      modifies this`listings, this`cursors, this`stored, this`clock
      ensures ListingsSound(config, initial) && stored >= old(stored) && Accounted(alive, old(clock))
      ensures alive ==> Before(config, stage, Target(config, stage)) <= stored
      ensures alive ==> |listings| == |old(listings)| + inserted
      ensures var start := if stage in old(cursors) then old(cursors)[stage] else 0;
              && start <= Target(config, stage) && FullBatches(config, stage, batchSize, start, saves)
              && start + made <= Target(config, stage) && (alive ==> start + made == Target(config, stage))
      ensures cursors == if saves == [] then old(cursors) else old(cursors)[stage := saves[|saves| - 1]]
    {
      hide Behind;
      hide Usable;
      hide Target;
      hide Pending;
      hide Before;
      hide ItemRows;
      hide StageRows;
      hide Plan;
      hide RowsHaveKeys;
      hide InsertAll;
      hide FullBatches;
      hide EndsBatch;
      alive, inserted, saves, made := true, 0, [], 0;
      var batch: seq<Row> := [];
      CursorIsBehind(config, stage, initial, listings, cursors, stored);
      ghost var first: nat := ReadCursor(cursors, stage);
      ghost var start: nat := first;
      var item := ReadCursor(cursors, stage);
      NewBatch(config, stage, start);
      NoBatches(config, stage, batchSize, first);
      while item < Target(config, stage)
        invariant ListingsSound(config, initial) && stored >= old(stored) && Accounted(true, old(clock))
        invariant item <= Target(config, stage) && Pending(config, stage, start, item, batch) && Before(config, stage, start) <= stored
        invariant |listings| == |old(listings)| + inserted
        invariant item == first + made && start == BatchStart(first, saves, |saves|) <= item
        invariant FullBatches(config, stage, batchSize, first, saves)
        invariant item == start || |batch| < batchSize
        invariant cursors == if saves == [] then old(cursors) else old(cursors)[stage := saves[|saves| - 1]]
      {
        ghost var before := batch;
        batch := AddItem(config, stage, item, batch, start);
        made := made + 1;
        if |batch| >= batchSize {
          FilledBatch(config, stage, batchSize, start, item, before, batch);
          var ok, count := Flush(config, stage, item + 1, batch, start, initial);
          if !ok { alive := false; return; }
          OneMoreBatch(config, stage, batchSize, first, saves, item + 1);
          saves := saves + [item + 1];
          inserted := inserted + count;
          batch, start := [], item + 1;
          NewBatch(config, stage, start);
        }
        item := item + 1;
      }
      if |batch| > 0 {
        LastBatch(config, stage, batchSize, start, item, batch);
        var ok, count := Flush(config, stage, Target(config, stage), batch, start, initial);
        if !ok { alive := false; return; }
        OneMoreBatch(config, stage, batchSize, first, saves, Target(config, stage));
        saves := saves + [Target(config, stage)];
        inserted := inserted + count;
      } else {
        NothingPending(config, stage, start, item, batch);
      }
    }

    /**
     * One run from the saved cursors, with any batch size. Wherever it dies, it
     * leaves a sound store; if it gets through, the table is that of a run that
     * was never interrupted.
     */
    method GenerateListings(config: Config, batchSize: nat, ghost initial: seq<Row>)
      returns (alive: bool, insertedListings: nat, insertedChallenges: nat)
      requires Usable(config) && ListingsSound(config, initial)
      modifies this`listings, this`cursors, this`stored, this`clock
      ensures ListingsSound(config, initial) && Accounted(alive, old(clock))
      ensures alive ==> listings == InsertAll(initial, Plan(config))
      ensures alive ==> |listings| == |old(listings)| + insertedListings + insertedChallenges
    {
      insertedChallenges := 0;
      StagesMeet(config);
      hide Behind;
      hide Target;
      hide Usable;
      hide Before;
      hide StageRows;
      hide Plan;
      hide InsertAll;
      hide FullBatches;
      ghost var saves, made;
      alive, insertedListings, saves, made := RunStage(config, Listings, batchSize, initial);
      if !alive { return; }
      alive, insertedChallenges, saves, made := RunStage(config, ChallengeListings, batchSize, initial);
      if alive { AllStored(config, initial, listings, cursors, stored); }
    }

    /**
     * Products in slices of the batch size, each followed by its checkpoint;
     * `handed` counts the rows handed to inserts, `saves` are the checkpoints.
     */
    method InsertProducts(plan: seq<Row>, batchSize: nat, ghost initial: seq<Row>)
      returns (alive: bool, inserted: nat, ghost handed: nat, ghost saves: seq<nat>)
      requires batchSize > 0 && Keyed(plan) && ProductsSound(plan, initial)
      modifies this`products, this`productCursor, this`storedProducts, this`clock
      ensures ProductsSound(plan, initial) && Accounted(alive, old(clock))
      ensures alive ==> products == InsertAll(initial, plan) && productCursor == |plan|
      ensures alive ==> |products| == |old(products)| + inserted
      ensures old(productCursor) + handed <= |plan| && (alive ==> old(productCursor) + handed == |plan|)
      ensures Slices(old(productCursor), saves, batchSize, |plan|) && productCursor == BatchStart(old(productCursor), saves, |saves|)
    {
      hide Slices;
      hide BatchStart;
      hide InsertAll;
      NoSlices(productCursor, batchSize, |plan|);
      alive, inserted, handed, saves := true, 0, 0, [];
      var index := productCursor;
      while index < |plan|
        invariant ProductsSound(plan, initial) && Accounted(true, old(clock))
        invariant productCursor == if index < |plan| then index else |plan|
        invariant |products| == |old(products)| + inserted
        invariant old(productCursor) + handed == productCursor == BatchStart(old(productCursor), saves, |saves|)
        invariant Slices(old(productCursor), saves, batchSize, |plan|)
      {
        var until := if index + batchSize < |plan| then index + batchSize else |plan|;
        var batch := plan[index..until];
        alive := Tick();
        if !alive { return; }
        ResumeInserts(initial, plan, storedProducts, index, until);
        inserted := inserted + |InsertAll(products, batch)| - |products|;
        products := InsertAll(products, batch);
        handed := handed + |batch|;
        if storedProducts < until { storedProducts := until; }
        alive := Tick();
        if !alive { return; }
        OneMoreSlice(old(productCursor), saves, batchSize, |plan|, until);
        productCursor, saves := until, saves + [until];
        index := index + batchSize;
      }
      assert plan[..|plan|] == plan;
    }
  }

  // ----- crash, restart, crash, restart

  /** At least so many of the statements up to now were deaths. */
  ghost predicate Died(dies: nat -> bool, clock: nat, deaths: set<nat>) {
    forall k <- deaths :: k <= clock && dies(k)
  }

  /**
   * Runs one after the other, each with its own batch size, until one gets
   * through or the attempts are used up: that takes a death for each of them.
   */
  method SeedWithRestarts(store: SeedStore, config: Config, products: seq<Row>, batchSizes: seq<nat>)
    returns (done: bool, ghost deaths: set<nat>)
    requires Usable(config) && Keyed(products)
    requires forall k :: 0 <= k < |batchSizes| ==> batchSizes[k] > 0
    requires store.ListingsSound(config, store.listings) && store.ProductsSound(products, store.products)
    modifies store
    ensures done ==> store.listings == InsertAll(old(store.listings), Plan(config))
                     && store.products == InsertAll(old(store.products), products)
    ensures OnePerKey(old(store.listings)) ==> OnePerKey(store.listings)
    ensures OnePerKey(old(store.products)) ==> OnePerKey(store.products)
    ensures Died(store.dies, store.clock, deaths) && (!done ==> |deaths| == |batchSizes|)
  {
    done, deaths := false, {};
    ghost var listings, catalogue := store.listings, store.products;
    var attempt := 0;
    while attempt < |batchSizes| && !done
      invariant attempt <= |batchSizes|
      invariant store.ListingsSound(config, listings) && store.ProductsSound(products, catalogue)
      invariant done ==> store.listings == InsertAll(listings, Plan(config)) && store.products == InsertAll(catalogue, products)
      invariant Died(store.dies, store.clock, deaths) && (!done ==> |deaths| == attempt)
    {
      var before := store.clock;
      var alive, _, _, _ := store.InsertProducts(products, batchSizes[attempt], catalogue);
      if alive {
        var through, _, _ := store.GenerateListings(config, batchSizes[attempt], listings);
        done := through;
      }
      if !done {
        assert before < store.clock && store.clock !in deaths;
        deaths := deaths + {store.clock};
      }
      attempt := attempt + 1;
    }
    if OnePerKey(listings) { InsertKeepsOnePerKey(listings, Plan(config)[..store.stored]); }
    if OnePerKey(catalogue) { InsertKeepsOnePerKey(catalogue, products[..store.storedProducts]); }
  }

  /** With fewer deaths in all than attempts, one gets through. */
  lemma EnoughAttempts(dies: nat -> bool, clock: nat, deaths: set<nat>, all: set<nat>, attempts: nat)
    requires Died(dies, clock, deaths) && |deaths| == attempts
    requires forall k :: dies(k) ==> k in all
    ensures |all| >= attempts
  {
    assert deaths <= all;
    SubsetSize(deaths, all);
  }

  lemma SubsetSize(s: set<nat>, t: set<nat>)
    requires s <= t
    ensures |s| <= |t|
  {
    assert t == s + (t - s);
  }
}
