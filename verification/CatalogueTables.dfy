/**
 * The tables the reconciliation job rewrites, and what one merge and one undo
 * do to them. Each is one database transaction, so each is one function from
 * tables to tables. Ids of all kinds are only compared.
 */
module CatalogueTables {
  import opened Options

  type Id = nat

  /** The fields a merge copies to the keeper; the first three are unique across products. */
  datatype Field = Gtin | Upc | Ean | Mpn | Sku | Brand | Model | ImageUrl | ThumbnailUrl

  const UNIQUE_FIELDS := {Gtin, Upc, Ean}

  /** A field that is missing in the row is missing in `fields`; `attributes` is the JSON object of the row. */
  datatype Product = Product(createdAt: int, title: Id, fields: map<Field, Id>, attributes: map<Id, Id>)

  datatype History = History(product: Id, listing: Id)

  datatype Watch = Watch(user: Id, product: Id)

  datatype Decision = Ai | Rules | Cleanup

  /** One row of the merge log: what the merge moved, so that it can be undone. */
  datatype Merge = Merge(
    kept: Id,
    merged: Id,
    snapshot: Product,
    movedListings: set<Id>,
    movedAlerts: set<Id>,
    movedReviews: set<Id>,
    movedWatches: set<Id>,
    droppedWatchers: set<Id>,
    decidedBy: Decision,
    aiVerdict: Option<bool>,
    undone: bool
  )

  /** Which product each row belongs to; listings and review items may belong to none. */
  type Owners = map<Id, Option<Id>>

  datatype Tables = Tables(
    products: map<Id, Product>,
    listings: Owners,
    alerts: Owners,
    reviews: Owners,
    history: map<Id, History>,
    watches: map<Id, Watch>,
    merges: seq<Merge>
  )

  /** Listings, alerts and review items move in the same way. */
  datatype Kind = ListingRows | AlertRows | ReviewRows

  function OwnersOf(t: Tables, kind: Kind): Owners {
    match kind
    case ListingRows => t.listings
    case AlertRows => t.alerts
    case ReviewRows => t.reviews
  }

  /** The rows of a kind that a logged merge moved. */
  function MovedOf(merge: Merge, kind: Kind): set<Id> {
    match kind
    case ListingRows => merge.movedListings
    case AlertRows => merge.movedAlerts
    case ReviewRows => merge.movedReviews
  }

  // ----- one merge

  /** The row after `updateMany where owner = merged set owner = kept`. */
  function Moved(owner: Option<Id>, kept: Id, merged: Id): Option<Id> {
    if owner == Some(merged) then Some(kept) else owner
  }

  function MoveOwners(owners: Owners, kept: Id, merged: Id): (after: Owners)
    ensures after.Keys == owners.Keys
  {
    map row <- owners :: Moved(owners[row], kept, merged)
  }

  function OwnedBy(owners: Owners, product: Id): set<Id> {
    set row <- owners | owners[row] == Some(product)
  }

  function MoveHistory(history: map<Id, History>, kept: Id, merged: Id): (after: map<Id, History>)
    ensures after.Keys == history.Keys
  {
    map row <- history :: if history[row].product == merged then history[row].(product := kept) else history[row]
  }

  predicate Watches(watches: map<Id, Watch>, user: Id, product: Id) {
    exists row <- watches :: watches[row] == Watch(user, product)
  }

  /** A watch on the merged product moves, unless its user watches the keeper too: then it is dropped. */
  function MoveWatches(watches: map<Id, Watch>, kept: Id, merged: Id): map<Id, Watch> {
    map row <- watches | watches[row].product != merged || !Watches(watches, watches[row].user, kept) ::
      if watches[row].product == merged then watches[row].(product := kept) else watches[row]
  }

  /** The keeper takes the fields its loaded row lacks and the merged product's loaded row has. */
  function Backfilled(row: Product, keepLoaded: Product, mergeLoaded: Product): Product {
    row.(fields := row.fields + (map field <- mergeLoaded.fields | field !in keepLoaded.fields :: mergeLoaded.fields[field]),
         attributes := BackfilledAttributes(row, keepLoaded, mergeLoaded))
  }

  /** Attributes are written whole, from the loaded rows, and only when the merged product's has a key of its own. */
  function BackfilledAttributes(row: Product, keepLoaded: Product, mergeLoaded: Product): map<Id, Id> {
    if mergeLoaded.attributes.Keys <= keepLoaded.attributes.Keys then row.attributes
    else mergeLoaded.attributes + keepLoaded.attributes
  }

  function MovedRows(watches: map<Id, Watch>, kept: Id, merged: Id): set<Id> {
    set row <- watches | watches[row].product == merged && !Watches(watches, watches[row].user, kept)
  }

  function DroppedUsers(watches: map<Id, Watch>, kept: Id, merged: Id): set<Id> {
    set row <- watches | watches[row].product == merged && Watches(watches, watches[row].user, kept) :: watches[row].user
  }

  function MergeRow(t: Tables, kept: Id, merged: Id, mergeLoaded: Product, decidedBy: Decision): Merge {
    Merge(kept, merged, mergeLoaded,
          OwnedBy(t.listings, merged), OwnedBy(t.alerts, merged), OwnedBy(t.reviews, merged),
          MovedRows(t.watches, kept, merged), DroppedUsers(t.watches, kept, merged),
          decidedBy, if decidedBy == Ai then Some(true) else None, false)
  }

  /** `keepLoaded` and `mergeLoaded` are the rows as the job read them, maybe before other merges of the run. */
  function Merged(t: Tables, kept: Id, merged: Id, keepLoaded: Product, mergeLoaded: Product, decidedBy: Decision): Tables
    requires kept in t.products && kept != merged
  {
    Tables(
      (t.products - {merged})[kept := Backfilled(t.products[kept], keepLoaded, mergeLoaded)],
      MoveOwners(t.listings, kept, merged),
      MoveOwners(t.alerts, kept, merged),
      MoveOwners(t.reviews, kept, merged),
      MoveHistory(t.history, kept, merged),
      MoveWatches(t.watches, kept, merged),
      t.merges + [MergeRow(t, kept, merged, mergeLoaded, decidedBy)])
  }

  // ----- one undo

  function GiveBack(owners: Owners, rows: set<Id>, product: Id): (after: Owners)
    ensures after.Keys == owners.Keys
  {
    map row <- owners :: if row in rows then Some(product) else owners[row]
  }

  function GiveBackHistory(history: map<Id, History>, listings: set<Id>, product: Id): (after: map<Id, History>)
    ensures after.Keys == history.Keys
  {
    map row <- history :: if history[row].listing in listings then history[row].(product := product) else history[row]
  }

  function GiveBackWatches(watches: map<Id, Watch>, rows: set<Id>, product: Id): (after: map<Id, Watch>)
    ensures after.Keys == watches.Keys
  {
    map row <- watches :: if row in rows then watches[row].(product := product) else watches[row]
  }

  /** Some product holds this value in this unique field. */
  predicate Taken(products: map<Id, Product>, field: Field, value: Id) {
    exists product <- products :: field in products[product].fields && products[product].fields[field] == value
  }

  /** The snapshot without the unique identifiers that another product holds now. */
  function Recreated(products: map<Id, Product>, snapshot: Product): Product {
    snapshot.(fields := map field <- snapshot.fields
                | field !in UNIQUE_FIELDS || !Taken(products, field, snapshot.fields[field]) :: snapshot.fields[field])
  }

  /** The ids the database gives to the rows of these users: `newRows` maps each new id to its user. */
  ghost predicate OneRowEach(users: set<Id>, newRows: map<Id, Id>) {
    && (forall user <- users :: exists row <- newRows :: newRows[row] == user)
    && (forall a <- newRows, b <- newRows :: newRows[a] == newRows[b] ==> a == b)
  }

  /** The rows of users whose watch was dropped are created again; (user, product) pairs that exist are skipped. */
  function RecreatedWatches(watches: map<Id, Watch>, users: set<Id>, product: Id, newRows: map<Id, Id>): map<Id, Watch> {
    watches + map row <- newRows | newRows[row] in users && !Watches(watches, newRows[row], product) :: Watch(newRows[row], product)
  }

  /** Undoing the merge logged at `n`. */
  function Undone(t: Tables, n: nat, newRows: map<Id, Id>): Tables
    requires n < |t.merges|
  {
    var merge := t.merges[n];
    var watches := GiveBackWatches(t.watches, merge.movedWatches, merge.merged);
    Tables(
      t.products[merge.merged := Recreated(t.products, merge.snapshot)],
      GiveBack(t.listings, merge.movedListings, merge.merged),
      GiveBack(t.alerts, merge.movedAlerts, merge.merged),
      GiveBack(t.reviews, merge.movedReviews, merge.merged),
      GiveBackHistory(t.history, merge.movedListings, merge.merged),
      RecreatedWatches(watches, merge.droppedWatchers, merge.merged, newRows),
      t.merges[n := merge.(aiVerdict := Some(false), undone := true)])
  }

  // ----- what every state keeps

  ghost predicate OwnersExist(owners: Owners, products: map<Id, Product>) {
    forall row <- owners :: owners[row].Some? ==> owners[row].value in products
  }

  /** At most one watch row per user and product. */
  ghost predicate OneWatchEach(watches: map<Id, Watch>) {
    forall a <- watches, b <- watches :: watches[a] == watches[b] ==> a == b
  }

  ghost predicate FieldsUnique(products: map<Id, Product>) {
    forall field <- UNIQUE_FIELDS, a <- products, b <- products
      | field in products[a].fields && field in products[b].fields && products[a].fields[field] == products[b].fields[field] ::
      a == b
  }

  /** A merge that can still be undone names a product that is gone, and moved at most one watch per user. */
  ghost predicate Undoable(t: Tables, merge: Merge) {
    && merge.merged !in t.products
    && forall a <- merge.movedWatches, b <- merge.movedWatches
         | a in t.watches && b in t.watches && t.watches[a].user == t.watches[b].user :: a == b
  }

  ghost predicate References(t: Tables) {
    && OwnersExist(t.listings, t.products) && OwnersExist(t.alerts, t.products) && OwnersExist(t.reviews, t.products)
    && (forall row <- t.history :: t.history[row].product in t.products && t.history[row].listing in t.listings)
    && (forall row <- t.watches :: t.watches[row].product in t.products)
  }

  ghost predicate LogConsistent(t: Tables) {
    && (forall n | 0 <= n < |t.merges| && !t.merges[n].undone :: Undoable(t, t.merges[n]))
    && (forall m, n | 0 <= m < n < |t.merges| && !t.merges[m].undone && !t.merges[n].undone ::
          t.merges[m].merged != t.merges[n].merged)
  }

  ghost predicate Consistent(t: Tables) {
    References(t) && OneWatchEach(t.watches) && FieldsUnique(t.products) && LogConsistent(t)
  }

  /** Rows read earlier in the run: their products have only gained fields since. */
  ghost predicate LoadedFrom(loaded: Product, row: Product) {
    && loaded.createdAt == row.createdAt
    && forall field <- loaded.fields :: field in row.fields && row.fields[field] == loaded.fields[field]
  }
}
