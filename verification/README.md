# PriceLens in Dafny

A model of the algorithms and protocols of PriceLens whose correctness is not
visible from one function body, with proofs. `dafny verify dfyconfig.toml`
checks everything.

| module | what it models |
|---|---|
| `EditDistance` | the matrix edit distance, proved to be the cost of a cheapest edit script and a metric, and the scores built on it |
| `PriceSeries` | the one-pass forward fill of change-only price history, against "the last change on or before the day" |
| `OrderStatistics`, `Outliers` | median and percentile rank; the market price as a median of store medians, and what a minority of stores can do to it |
| `DealScore` | the deal score with weight redistribution and the buy verdict, both monotone in the price |
| `DealsPost`, `Basket`, `CartWatch` | the capped greedy pick and the cheapest basket, both proved optimal; notify and re-arm of watched baskets |
| `CatalogueTables`, `CatalogueUndo`, `CatalogueRuns`, `CatalogueFields`, `CatalogueChains`, `CatalogueWatches`, `Reconciliation`, `CatalogueReview` | merging catalogue products and undoing merges: tables as maps, each transaction one step, whole runs, and chains of merges |
| `Sessions`, `AuthService` | refresh-token rotation, reuse detection and the session cap under any interleaving of requests |
| `KeyedMutex` | the promise chain per key |
| `Settlement`, `Billing` | paying invoices and approving manual payments under replayed, duplicated and interleaved events |
| `Subscriptions` | granting, cancelling and expiring plans, and what the entitlement check reads out of the rows |
| `Seeding`, `ProductEnumeration` | checkpointed seeding that survives crashes; which product an index stands for |
| `Csv` | both CSV printers, each against a parser |

Where the source changes state, a class has the same state and methods, each
proved equal to a step function or a specification; the lemmas are about those.
Concurrent protocols are state machines whose steps are the source's database
statements (or promise callbacks); a claim about "every run" ranges over all
sequences of steps.

## What the proofs turned up

- Reviewing earlier merges goes through the log oldest first
  (reconciliation.service.ts:219). Undoing in that order restores listings
  exactly when no listing was moved by two of the merges, and alerts and review
  items likewise; in a chain it leaves them at the product in the middle (`CatalogueChains.OldestFirstRestoresExactly`,
  `OldestFirstMisplaces`; `CatalogueReview.ReviewReturnsExactly` for reviews that
  undo only some). Newest first restores them always (`NewestFirstRestores`).
- Watches come back in that order exactly when no watch row that one merge moved
  was dropped by a later one (`CatalogueWatches.NewestFirstWatchesExactly`): an
  undo makes dropped rows again under new ids, which older log rows do not name.
- The comment on merging promises that a unique identifier is not lost with its
  row (reconciliation.service.ts:471-472). The loop works on rows read before
  it, so only direct merges count: `CatalogueFields.IdentifierKeptExactly` says
  which identifiers survive a run, `IdentifierLostInOneRun` builds runs that lose
  one. Attributes are written whole from those rows, so a second merge into the
  same keeper drops what the first brought (`AttributesAfterRun`).
- Undoing a merge gives price history to its listings' product, so history is
  restored exactly when it was coherent before (`CatalogueUndo.HistoryRestoredExactly`,
  `CatalogueChains.NewestFirstHistoryExactly`).
- A checkout that fails overwrites any status with FAILED, which is claimable
  (invoices.service.ts:116-120). One grant per invoice holds exactly as far as
  that write hits no invoice that is claimed or has granted
  (`Settlement.FailedCheckoutKeepsExactly`, `EachSourceGrantsOnce`); where it does,
  the next event grants again (`OverwrittenGrantsAgain`), or two do
  (`OverwrittenHolderGrantsToo`, `OverwrittenHolderLetsTwoGrant`).
- A handler whose grant throws writes back the status it read
  (invoices.service.ts:187), which may be the PAID of another handler's claim
  that has been given back since. The invoice is then PAID, nothing was granted,
  and no event grants it any more (`Settlement.PaidWithoutGrant`, `StuckForever`;
  `BackedExactly` for the steps that lose a payment).
- A reused refresh token does not end a chain that another refresh has rotated
  and not yet continued at that moment (`Sessions.ReuseEndsEverySession`,
  `RotationUnderWaySurvives`; `ReuseDuringRotation` builds such runs).
- A change of plan inside one provider subscription always meets the unique
  index on its id, which the retired row still carries; and a user whose live
  row is INCOMPLETE cannot be granted a live subscription (`Subscriptions.RefusedExactly`).
- The expiry sweep's update does not look again at the rows it read: a renewal
  in between is expired with the period just paid for
  (`Subscriptions.StaleSweepEndsPaidPeriod`; `SweepHarmlessExactly` for when it is harmless).
- A payment during dunning, or for another plan, overlaps what is left of the
  current period (`Subscriptions.PaymentFollowsCurrentExactly`).
- An export whose last line is one empty cell, and one with a row without cells,
  do not read back (`Csv.ExportRoundTripExactly`).
- The edit distance's comment speaks of row optimisation (fuzzy-matcher.service.ts:11);
  the code keeps the whole matrix, and so does the model.
- Baskets need not list distinct products for the basket results: repeated
  products are priced line by line.

## Conventions

- Money, scores and ratios are `real`; `Math.round` is floor(x + 0.5). ISO dates
  are day numbers, times are integer milliseconds.
- Ids, tokens, titles and names that are only compared are natural numbers; the
  printers and parsers of `Csv` work on characters.
- The AI judge, the conflict and accessory guards, the answers of payment
  providers, clocks, fresh ids and whether a grant's transaction fails are inputs.
- Rows a query returns in no stated order, or within a limit, are inputs too,
  required to be rows the query may return.
- Uniqueness and foreign keys of the database are used as stated in the schema,
  a transaction and a single statement are atomic.

## Model

| member | source | states |
|---|---|---|
| `EditDistance.Levenshtein` | apps/api/src/matching/fuzzy-matcher.service.ts:13-36 | the matrix algorithm returns the recurrence `Distance` |
| `EditDistance.CellRecurrence` | apps/api/src/matching/fuzzy-matcher.service.ts:17-33 | each cell holds the distance of two prefixes, edges included |
| `EditDistance.DistanceIsEditDistance` | apps/api/src/matching/fuzzy-matcher.service.ts:8-36 | that number is attained by some edit script and undercut by none |
| `EditDistance.NoCheaperScript` | apps/api/src/matching/fuzzy-matcher.service.ts:23-32 | no script of keeps, substitutions, insertions and deletions costs less |
| `EditDistance.DistanceZero` | apps/api/src/matching/fuzzy-matcher.service.ts:13-36 | zero exactly on equal texts |
| `EditDistance.DistanceSymmetric` | apps/api/src/matching/fuzzy-matcher.service.ts:13-36 | symmetric, although the matrix treats its arguments differently |
| `EditDistance.DistanceTriangle` | apps/api/src/matching/fuzzy-matcher.service.ts:13-36 | triangle inequality, by composing cheapest scripts |
| `EditDistance.DistanceBounds` | apps/api/src/matching/fuzzy-matcher.service.ts:13-36 | at least the length difference, at most the longer length |
| `EditDistance.EditSimilarity` | apps/api/src/matching/fuzzy-matcher.service.ts:41-46 | in [0, 1]; 1 exactly on equal texts, 0 exactly when every character is changed |
| `EditDistance.SimilarityMeaning` | apps/api/src/matching/fuzzy-matcher.service.ts:41-46 | scaled by the longer length, the similarity is what the distance leaves of it |
| `EditDistance.JaccardRange` | apps/api/src/matching/fuzzy-matcher.service.ts:52-59 | the shared tokens over all tokens, in [0, 1], and 1 exactly on equal token sets |
| `EditDistance.TokenOverlapClosedForm` | apps/api/src/matching/fuzzy-matcher.service.ts:65-75 | the harmonic mean of the two shares is twice the shared tokens over all tokens; 1 exactly on equal non-empty sets |
| `EditDistance.CombinedScore` | apps/api/src/matching/fuzzy-matcher.service.ts:81-93 | the weighted blend, in [0, 1], and 1 exactly on equal texts with equal non-empty token sets |
| `PriceSeries.ForwardFillDailySeries` | apps/api/src/intelligence/price-statistics.ts:97-184 | the one-pass cursor fill makes the declared series, cut after the day limit; cursors advance at most once per change |
| `PriceSeries.SeriesMeaning` | apps/api/src/intelligence/price-statistics.ts:138-181 | a point exactly for each day in range on which a listing is quoted, dates strictly increasing |
| `PriceSeries.CutSeries` | apps/api/src/intelligence/price-statistics.ts:117-138 | a point exactly for the quoted days in range, of the first 2000 |
| `PriceSeries.LastChangeMeaning` | apps/api/src/intelligence/price-statistics.ts:144-156 | the quote of a day is the last change on or before it, later ones in the input winning ties |
| `PriceSeries.QuotesMeaning` | apps/api/src/intelligence/price-statistics.ts:144-166 | a day quotes a change if and only if no later one of its listing supersedes it by then and the listing was seen at most two days before, if its last sighting is known |
| `PriceSeries.QuotedOnce` | apps/api/src/intelligence/price-statistics.ts:136-166 | and no listing twice |
| `PriceSeries.ExtremesMeaning` | apps/api/src/intelligence/price-statistics.ts:171-180 | the lowest and highest price of a day are quoted prices that bound the others |
| `PriceSeries.StockMeaning` | apps/api/src/intelligence/price-statistics.ts:165-179 | a day is in stock exactly when one of its quoted listings is |
| `PriceSeries.SeriesPoint` | apps/api/src/intelligence/price-statistics.ts:169-181 | every point sums up its day's quotes: their number, least and greatest price, an average between them that times the number is their total, stock if any has it |
| `PriceSeries.SumOfBoth` | apps/api/src/intelligence/price-statistics.ts:177-177 | the total of two lists of prices is the sum of their totals |
| `PriceSeries.PointInAnyOrder` | apps/api/src/intelligence/price-statistics.ts:169-181 | a point does not depend on the order of the listings |
| `PriceSeries.GroupByListing` | apps/api/src/intelligence/price-statistics.ts:103-108 | every change lands in its listing's bucket, in input order |
| `PriceSeries.SortKeepsLastChange` | apps/api/src/intelligence/price-statistics.ts:109-111 | sorting a bucket by date changes no day's last change |
| `PriceSeries.Advance` | apps/api/src/intelligence/price-statistics.ts:145-152 | a cursor moved past all changes up to a day sits at the listing's last change |
| `PriceSeries.FillDay` | apps/api/src/intelligence/price-statistics.ts:138-181 | one day of the pass makes that day's declared point from any earlier cursor state |
| `OrderStatistics.MedianHalves` | apps/api/src/intelligence/price-statistics.ts:186-191 | at least half of the values lie on either side of the median |
| `OrderStatistics.MedianExactly` | apps/api/src/intelligence/price-statistics.ts:186-191 | the median is the value of the middle rank, or halfway between those of the two middle ranks |
| `OrderStatistics.MedianUnique` | apps/api/src/intelligence/price-statistics.ts:186-191 | which is one value only |
| `OrderStatistics.CountSort` | apps/api/src/intelligence/price-statistics.ts:188-188 | sorting keeps every count |
| `OrderStatistics.SortEnds` | apps/api/src/intelligence/price-statistics.ts:188-188 | a sorted list starts with the least value and ends with the greatest |
| `OrderStatistics.RankMonotone` | apps/api/src/intelligence/price-statistics.ts:216-225 | a percentile rank is a percentage and never falls as the value grows |
| `Outliers.FilterMarketOutliers` | apps/api/src/intelligence/price-statistics.ts:657-694 | an order-preserving partition; never empties its input; what is excluded is exactly what has no positive price between the two multiples of the market price, unless that is everything |
| `Outliers.MarketOf` | apps/api/src/intelligence/price-statistics.ts:664-681 | the market is the median of the stores' medians, or none with too little data |
| `Outliers.MarketExactly` | apps/api/src/intelligence/price-statistics.ts:664-681 | with two stores or more that state a price the market is the median of their medians; with one, the median of its prices if there are three; else none |
| `Outliers.GroupByStore` | apps/api/src/intelligence/price-statistics.ts:664-671 | each store's positive prices, stores in order of first appearance |
| `Outliers.MarketPositive` | apps/api/src/intelligence/price-statistics.ts:673-681 | a market price is positive |
| `Outliers.MinorityCannotMoveMarket` | apps/api/src/intelligence/price-statistics.ts:647-681 | stores that are fewer than half of those with a price, whatever they state and however many listings they have, leave the market between the prices of two other stores |
| `Outliers.OneStoreCannotMoveMarket` | apps/api/src/intelligence/price-statistics.ts:647-681 | in particular one store of three or more, also by withdrawing its prices |
| `Outliers.TwoStoresAverage` | apps/api/src/intelligence/price-statistics.ts:674-675 | with two stores the market is their mean, so the protection needs three |
| `DealScore.ComputeDealScore` | apps/api/src/intelligence/deal-score.ts:68-238 | signals, score and coverage, the grade by 40, 60 and 80; a score in 0..100 exactly when half of the weight is resolved |
| `DealScore.Weights` | apps/api/src/intelligence/deal-score.ts:43-50 | the weights add up to 100 and the resolved weight is the sum over resolved signals |
| `DealScore.ScoreMeaning` | apps/api/src/intelligence/deal-score.ts:216-232 | the score is the nearest integer to the mean of the measured signals with weights 35, 25, 15, 10, 10 and 5, published exactly from 50 on |
| `DealScore.HistoryMeaning` | apps/api/src/intelligence/deal-score.ts:73-84 | the first signal is the percentage of recorded prices above this one, equal ones counting half |
| `DealScore.MarketMeaning` | apps/api/src/intelligence/deal-score.ts:95-128 | the second places the price between the cheapest and the dearest other store, 50 when they agree |
| `DealScore.DiscountMeaning` | apps/api/src/intelligence/deal-score.ts:130-155 | the third grows with the distance below the typical price, full at 30 percent |
| `DealScore.OtherSignalsMeaning` | apps/api/src/intelligence/deal-score.ts:158-213 | known stock is all or nothing, six stores are full coverage, volatility counts against stability up to 0.3 |
| `DealScore.PublishedExactlyWithHistory` | apps/api/src/intelligence/deal-score.ts:74-229 | a score is published exactly when there are a price, statistics and five days of history |
| `DealScore.ScoreBetweenSignals` | apps/api/src/intelligence/deal-score.ts:216-232 | the redistributed score lies between any bounds of its resolved signals, up to rounding |
| `DealScore.SignalsMonotone` | apps/api/src/intelligence/deal-score.ts:74-191 | a lower price worsens no signal and resolves the same ones |
| `DealScore.LowerPriceNeverScoresLower` | apps/api/src/intelligence/deal-score.ts:68-238 | all else equal, a lower price never scores or grades lower |
| `DealScore.VerdictExactly` | apps/api/src/intelligence/price-statistics.ts:339-441 | insufficient below 10 days or a span of 14; else buy if and only if at most a quarter of the prices are lower, wait if and only if seven tenths are or a sale is 1 to 14 days away |
| `DealScore.LowerPriceNeverWorsensVerdict` | apps/api/src/intelligence/price-statistics.ts:339-462 | all else equal, a lower price never worsens the verdict, and whether there is one does not depend on it |
| `DealScore.ExtremePrices` | apps/api/src/intelligence/price-statistics.ts:394-427 | under every recorded price is a good time to buy, above them all a time to wait |
| `DealsPost.PickForPost` | apps/api/src/deals/deals-post.service.ts:83-95 | the capped pass returns an allowed selection; on drops sorted by size no allowed one is better in number, at any rank or in total |
| `DealsPost.GreedyTakesMost` | apps/api/src/deals/deals-post.service.ts:83-95 | up to every position it has taken at least as many as any allowed selection |
| `DealsPost.NoLaterIsBest` | apps/api/src/deals/deals-post.service.ts:83-95 | on drops sorted by size that makes the picks maximal in number, rank by rank, and in total |
| `Basket.CheapestStore` | apps/api/src/buyer/cart-watch.service.ts:39-64 | one-store mode: a total exactly when a platform carries everything, and then the least over all that do, with its prices and its name; the total is the rounded sum of price times quantity |
| `Basket.ChargeByPieces` | apps/api/src/buyer/cart-watch.service.ts:35-50 | no pieces cost nothing, one costs its price, and pieces may be charged together or apart |
| `Basket.ToCentsMeaning` | apps/api/src/buyer/cart-watch.service.ts:36-60 | a total is a whole number of cents, within half a cent of the amount, halves up |
| `Basket.TallyCosts` | apps/api/src/buyer/cart-watch.service.ts:40-54 | the surviving entries are exactly the platforms carrying every item, with their costs |
| `Basket.AddItem` | apps/api/src/buyer/cart-watch.service.ts:41-54 | one item charges the platforms that offer it and drops the others |
| `Basket.FirstOfferMeaning` | apps/api/src/buyer/cart-watch.service.ts:42-45 | on price-sorted offers the first of a platform is its cheapest, and the first of all no dearer |
| `Basket.AcrossIsCheapest` | apps/api/src/buyer/cart-watch.service.ts:29-37 | across stores, no way to buy the basket is cheaper |
| `Basket.CostAtIsCheapestThere` | apps/api/src/buyer/cart-watch.service.ts:42-51 | on price-sorted offers, no way to buy the basket at one platform costs less than one-store mode says |
| `Basket.AcrossNoDearerThanOneStore` | apps/api/src/buyer/cart-watch.service.ts:24-65 | whenever one store can sell the basket, the across-stores total exists and is no larger, cents included |
| `Basket.LinesAddUp` | apps/api/src/buyer/cart-watch.service.ts:59-64 | each line's price times its quantity, summed up, is the one-store total before rounding |
| `Basket.AcrossByPieces` | apps/api/src/buyer/cart-watch.service.ts:29-36 | across stores m + n pieces on one line cost what m and n do on two, none costs nothing, one costs the first offer's price |
| `Basket.CostByPieces` | apps/api/src/buyer/cart-watch.service.ts:48-51 | in one-store mode m + n pieces on one line cost what m and n do on two |
| `Basket.CostOfOnePiece` | apps/api/src/buyer/cart-watch.service.ts:48-51 | and none costs nothing, one costs the price asked there |
| `Basket.AcrossMeaning` | apps/api/src/buyer/cart-watch.service.ts:29-37 | across stores: each item with its first offer; a total if and only if some item has one, which is the rounded sum of price times quantity; the others are listed as missing |
| `CartWatch.CartWatchService.EvaluateAll` | apps/api/src/buyer/cart-watch.service.ts:145-187 | the sweep reprices every basket of its batch, touches no other, and notifies exactly those with all prices, at or under their target, of which no notice stands |
| `CartWatch.ReachedMeaning` | apps/api/src/buyer/cart-watch.service.ts:145-158 | in every history a check reaches the target if and only if every item has a price and they come to no more than the target last set |
| `CartWatch.NoticeExactly` | apps/api/src/buyer/cart-watch.service.ts:157-170 | a check notifies exactly when it finds the basket reached and the event before did not |
| `CartWatch.RearmedBetween` | apps/api/src/buyer/cart-watch.service.ts:114-165 | between two notices the price was above the target or the target moved |
| `CartWatch.ReachedWasTold` | apps/api/src/buyer/cart-watch.service.ts:141-170 | an unbroken stretch of reached checks begins with a notice |
| `Reconciliation.ReconciliationService.MergeCanonicals` | apps/api/src/matching/reconciliation.service.ts:474-552 | one transaction re-homes listings, history, alerts, reviews and watches, backfills the keeper, logs the merge and deletes the other product |
| `Reconciliation.ReconciliationService.MoveWatchlist` | apps/api/src/matching/reconciliation.service.ts:501-525 | rows of users who already watch the keeper are dropped and remembered, the others moved |
| `Reconciliation.FieldsToCopy` | apps/api/src/matching/reconciliation.service.ts:628-637 | the fields copied are exactly those the keeper lacks and the other has |
| `Reconciliation.ReconciliationService.UndoMerge` | apps/api/src/matching/reconciliation.service.ts:560-615 | one transaction recreates the product without the unique identifiers others hold, gives back what the log names, recreates dropped watches and marks the merge undone |
| `Reconciliation.ReconciliationService.Reconcile` | apps/api/src/matching/reconciliation.service.ts:137-201 | the loop performs (or in a dry run proposes) exactly the merges of the pairs that are read, not consumed, clear and approved, until the question budget is used up; all from rows read before it, with everything `RunEffect` says |
| `Reconciliation.ReconciliationService.ReviewUnreviewedMerges` | apps/api/src/matching/reconciliation.service.ts:215-239 | the oldest merges the rules made alone that have no verdict and were not undone are approved or undone in log order, up to the first the judge cannot answer; the tables stay consistent |
| `Reconciliation.PendingExactly` | apps/api/src/matching/reconciliation.service.ts:217-221 | the queue is those merges, oldest first, or the first `limit` of them |
| `Reconciliation.StepExtends` | apps/api/src/matching/reconciliation.service.ts:143-200 | with `consumed` guarding them, the rows read before the loop stay usable: each merge extends the run |
| `CatalogueUndo.MergedConsistent` | apps/api/src/matching/reconciliation.service.ts:474-552 | a merge keeps referential integrity, one watch per user and product, and unique identifiers |
| `CatalogueUndo.UndoneConsistent` | apps/api/src/matching/reconciliation.service.ts:560-615 | so does undoing a merge that has not been undone |
| `CatalogueUndo.UndoRestores` | apps/api/src/matching/reconciliation.service.ts:474-615 | undoing the latest merge restores listings, alerts, reviews and the set of watches; of the products only the keeper differs, by what it took |
| `CatalogueUndo.UndoneProduct` | apps/api/src/matching/reconciliation.service.ts:566-589 | an undone product has its title, age, attributes and fields back, a unique identifier if and only if no product holds that value; no other product changes |
| `CatalogueUndo.FieldReturnsExactly` | apps/api/src/matching/reconciliation.service.ts:628-637 | undone right after its merge, a product has a field back if and only if it is not unique or the keeper, as read, had one of that kind |
| `CatalogueUndo.HistoryRestoredExactly` | apps/api/src/matching/reconciliation.service.ts:592-596 | history is restored if and only if each row of the merged product belongs to one of its listings and vice versa |
| `CatalogueFields.FieldAfterRun` | apps/api/src/matching/reconciliation.service.ts:628-637 | after a run a field of a survivor is its own from before, else that of the last product with one merged directly into it |
| `CatalogueFields.FieldKeptExactly` | apps/api/src/matching/reconciliation.service.ts:617-637 | a survivor has a kind of field if and only if it had it before or a product merged directly into it did |
| `CatalogueFields.IdentifierKeptExactly` | apps/api/src/matching/reconciliation.service.ts:471-472 | a unique identifier survives the run if and only if its holder does, or is merged directly into a survivor that lacks one and is given none later |
| `CatalogueFields.IdentifierLostInOneRun` | apps/api/src/matching/reconciliation.service.ts:471-472 | for any three products in order of age there is an allowed run in which the comment's promise fails |
| `CatalogueFields.AttributesAfterRun` | apps/api/src/matching/reconciliation.service.ts:645-650 | of all products merged into a survivor only the last with a new key leaves its attributes: they are written whole from the rows read before |
| `CatalogueFields.AttributeKeptExactly` | apps/api/src/matching/reconciliation.service.ts:645-650 | so which attribute keys a survivor has, exactly |
| `Reconciliation.AttributesToWrite` | apps/api/src/matching/reconciliation.service.ts:645-650 | the spread of both objects when it has more keys than the keeper's, else the row as it is |
| `CatalogueRuns.RunRehomes` | apps/api/src/matching/reconciliation.service.ts:137-201 | over any run: consistent tables, no listing, alert, review item or watch lost, each product merged away at most once, survivors the oldest of their groups |
| `CatalogueRuns.RunMergesOnce` | apps/api/src/matching/reconciliation.service.ts:139-200 | a product merged away does not come back within the run |
| `CatalogueRuns.RunWatches` | apps/api/src/matching/reconciliation.service.ts:501-525 | every (user, product) watch is still there for the product's survivor |
| `CatalogueRuns.RunSurvivors` | apps/api/src/matching/reconciliation.service.ts:180-181 | each survivor is there and no younger product survived an older one |
| `CatalogueChains.NewestFirstRestores` | apps/api/src/matching/reconciliation.service.ts:560-615 | every run undone newest first gets listings, alerts, reviews and the set of products back |
| `CatalogueChains.NewestFirstHistoryExactly` | apps/api/src/matching/reconciliation.service.ts:592-596 | and its price history if and only if each row with a moved listing belongs to that listing's product and no other row's product was merged away |
| `CatalogueChains.CoherentHistoryFollows` | apps/api/src/matching/reconciliation.service.ts:592-596 | which is so when each history row belongs to its listing's product |
| `CatalogueWatches.NewestFirstWatchesExactly` | apps/api/src/matching/reconciliation.service.ts:599-608 | and its set of (user, product) watches if and only if no row that one merge moved was dropped by a later one |
| `CatalogueWatches.WatchesBack` | apps/api/src/matching/reconciliation.service.ts:501-525 | what is watched after that undo: what the rows left by the run stood for before, and what the run dropped |
| `CatalogueChains.OldestFirstRestoresExactly` | apps/api/src/matching/reconciliation.service.ts:215-239 | undone oldest first, as the review does, listings come back if and only if no listing was moved twice, and alerts and review items likewise |
| `CatalogueChains.OldestFirstMisplaces` | apps/api/src/matching/reconciliation.service.ts:217-221 | in every two-step chain a listing, alert or review item of the first product is left at the middle one |
| `CatalogueWatches.WatchMisplacedInChain` | apps/api/src/matching/reconciliation.service.ts:599-608 | a row moved and then dropped is not restored, and its user watches a product not watched before |
| `CatalogueReview.ReviewReturnsExactly` | apps/api/src/matching/reconciliation.service.ts:215-239 | after a review that approves some merges of a run and undoes others, a listing, alert or review item is back at its first product if and only if the run never moved it, or its first move is rejected and no later one is |
| `Sessions.RotationSafe` | apps/api/src/auth/auth.service.ts:116-156 | in every interleaving each login chain has at most one live session and each session at most one successor |
| `Sessions.OneLiveSessionPerLogin` | apps/api/src/auth/auth.service.ts:146-155 | the same, said of any two sessions of a reachable state |
| `Sessions.StepKeepsRotation` | apps/api/src/auth/auth.service.ts:116-268 | every step of every request keeps that invariant |
| `Sessions.RevokedForever` | apps/api/src/auth/auth.service.ts:186-195 | a revoked session stays revoked in every later state and its access token is never accepted |
| `Sessions.RefreshedInTime` | apps/api/src/auth/auth.service.ts:126-155 | in every run a session that came of a refresh goes back to its parent's token presented by its owner, not revoked, and no later than it expired |
| `Sessions.ReuseEndsEverySession` | apps/api/src/auth/auth.service.ts:131-140 | under any interleaving, a session of the user that is live after the revocation was created after it: by a login, or in a chain that a refresh had rotated but not yet continued (section 4.14 of RFC 9700) |
| `Sessions.ReuseExactly` | apps/api/src/auth/auth.service.ts:131-149 | in every run a presented token is reuse if and only if it is its owner's and a refresh rotated it longer ago than the grace window; revocations by logout, cap or reuse never count, and a revoked token that is not reuse changes nothing |
| `Sessions.RotatedExactly` | apps/api/src/auth/auth.service.ts:146-154 | in every run a session is marked as rotated at a time if and only if the update of some refresh found it live then |
| `Sessions.RotationUnderWaySurvives` | apps/api/src/auth/auth.service.ts:149-155 | from every run in which reuse by a user is about to be revoked while a refresh of theirs is between its update and its insert, that refresh ends with the user's one live session, whose access tokens are accepted |
| `Sessions.ReuseDuringRotation` | apps/api/src/auth/auth.service.ts:116-155 | such runs exist for every user, all ids and all times: login, refresh, a second refresh up to its update, the first token once more after its grace window |
| `Sessions.StepKeepsCap` | apps/api/src/auth/auth.service.ts:237-261 | some request is always about to bring a user who has more than five sessions back to five |
| `Sessions.AtMostFiveAtRest` | apps/api/src/auth/auth.service.ts:237-261 | in every interleaving, once none of the user's requests is between insert and clean-up, at most five sessions are live |
| `AuthService.AuthService.BeginLogin` | apps/api/src/auth/auth.service.ts:108-114 | a login starts a request that will create a first session |
| `AuthService.AuthService.FindSession` | apps/api/src/auth/auth.service.ts:126-144 | a token goes on to rotate if and only if it is stored, its owner's, not revoked and not expired; it is reuse if and only if it was rotated more than a minute ago |
| `AuthService.AuthService.ValidateJwtUser` | apps/api/src/auth/auth.service.ts:186-195 | an access token is accepted if and only if its session is its subject's, not revoked and not expired |
| `AuthService.AuthService.RotateSession` | apps/api/src/auth/auth.service.ts:146-153 | the conditional update changes one row or none, and none means stop |
| `AuthService.AuthService.CreateSessionAndTokens` | apps/api/src/auth/auth.service.ts:212-268 | one new session in its chain; above five, all but five of the newest are revoked, and nothing else changes |
| `AuthService.AuthService.RefreshTokens` | apps/api/src/auth/auth.service.ts:116-156 | a whole refresh: a successor if and only if the token is stored, its owner's, not revoked and not expired; every session ended if it is reuse; else no change |
| `KeyedMutex.MutualExclusion` | apps/api/src/common/keyed-mutex.ts:10-26 | in every run at most one work item per key executes, and none begins before an earlier one of its key is over |
| `KeyedMutex.KeyInMapExactly` | apps/api/src/common/keyed-mutex.ts:17-24 | in every run a key is in the map exactly while it has work running or waiting |
| `KeyedMutex.NeverStuck` | apps/api/src/common/keyed-mutex.ts:10-26 | some step is enabled while any call is not over |
| `KeyedMutex.EveryStepCounts` | apps/api/src/common/keyed-mutex.ts:10-26 | each such step brings the end one nearer, also when work throws |
| `KeyedMutex.KeyedMutex.Enter` | apps/api/src/common/keyed-mutex.ts:10-18 | a call takes the tail of its key and leaves its own |
| `KeyedMutex.KeyedMutex.Begin` | apps/api/src/common/keyed-mutex.ts:19-21 | work begins only when every earlier call of the key is over |
| `KeyedMutex.KeyedMutex.Exit` | apps/api/src/common/keyed-mutex.ts:22-25 | returning or throwing releases the next call; the key leaves the map if the tail is still its own |
| `KeyedMutex.KeyedMutex.Size` | apps/api/src/common/keyed-mutex.ts:28-31 | the number of keys with work running or waiting |
| `Settlement.PaymentGrantsOnce` | apps/api/src/billing/manual-payments.service.ts:208-242 | in every interleaving each manual payment leads to at most one grant, and each event key too |
| `Settlement.EachSourceGrantsOnce` | apps/api/src/billing/invoices.service.ts:116-202 | where no checkout fails over an invoice that is claimed or has granted, each invoice grants at most once, whatever event ids arrive and however they race the checkout |
| `Settlement.FailedCheckoutKeepsExactly` | apps/api/src/billing/invoices.service.ts:116-120 | the failing write of a checkout leaves the claim sound if and only if nobody holds the invoice and it has not granted |
| `Settlement.UnsettledNotOverwritten` | apps/api/src/billing/invoices.service.ts:116-120 | the status tells: failures over invoices neither paid nor refunded overwrite nothing |
| `Settlement.OverwrittenGrantsAgain` | apps/api/src/billing/invoices.service.ts:116-189 | from every run whose invoice has granted, a failing checkout and any new event lead to a second grant |
| `Settlement.OverwrittenHolderGrantsToo` | apps/api/src/billing/invoices.service.ts:116-189 | and from every run whose invoice is claimed by a handler about to grant |
| `Settlement.OverwrittenHolderLetsTwoGrant` | apps/api/src/billing/invoices.service.ts:116-189 | and from every run whose invoice is held by a handler that read a claimable status: it may give the claim back, and two later events grant |
| `Settlement.PaidDuringCheckoutGrantsTwice` | apps/api/src/billing/invoices.service.ts:116-189 | such runs exist for every invoice and every two events |
| `Settlement.BackedExactly` | apps/api/src/billing/invoices.service.ts:140-189 | a step leaves a paid or refunded invoice with neither a grant nor a holder if and only if the last holder writes back a settled status or takes the grant for done, or a refund is written for a claim given back |
| `Settlement.PaidIsGranted` | apps/api/src/billing/invoices.service.ts:162-189 | in every run without such a step a paid or refunded invoice has granted or is still held |
| `Settlement.StuckForever` | apps/api/src/billing/invoices.service.ts:134-189 | an invoice paid without a grant, on which nobody is at work, is granted by no later event |
| `Settlement.PaidWithoutGrant` | apps/api/src/billing/invoices.service.ts:162-189 | runs that come to this exist for every invoice and every two events: the second reads the claim of the first, claims when that is given back, and fails in turn |
| `Settlement.ClosedNeverGrants` | apps/api/src/billing/manual-payments.service.ts:208-250 | in every run a payment rejected or cancelled that nobody holds stays so and grants nothing more |
| `Settlement.RejectingCloses` | apps/api/src/billing/manual-payments.service.ts:252-265 | a rejection closes an open payment, and leaves an approved one |
| `Settlement.StepKeepsClaim` | apps/api/src/billing/invoices.service.ts:116-189 | every step but an overwriting failure keeps the claim discipline: one holder, roll back by the holder only |
| `Settlement.StepKeepsKeys` | apps/api/src/billing/subscriptions.service.ts:55-117 | every grant has its own event row |
| `Billing.Billing.Settle` | apps/api/src/billing/invoices.service.ts:131-202 | every outcome of one event: status, answer, and a grant exactly for a matching payment of a claimable invoice under a new key; undisturbed it is a run of the protocol's steps |
| `Billing.Billing.ClaimAndGrant` | apps/api/src/billing/invoices.service.ts:171-189 | claim, grant, and the old status back when the grant throws |
| `Billing.Billing.Approve` | apps/api/src/billing/manual-payments.service.ts:208-250 | a payment awaited or submitted is approved and grants once, or is as before when the grant throws; any other is refused; the same run of steps |
| `Billing.Billing.Submit` | apps/api/src/billing/manual-payments.service.ts:135-174 | an awaited payment is submitted, any other refused |
| `Billing.Billing.Cancel` | apps/api/src/billing/manual-payments.service.ts:176-186 | an open payment is cancelled, any other refused |
| `Billing.Billing.Reject` | apps/api/src/billing/manual-payments.service.ts:252-278 | an open payment is rejected, any other refused |
| `Billing.PaymentPlays` | apps/api/src/billing/invoices.service.ts:166-189 | the steps of an undisturbed payment: read, claim, check, commit or fail, give back; their outcome written out |
| `Billing.NoticePlays` | apps/api/src/billing/invoices.service.ts:139-169 | the steps of any other notice: what each makes of each status |
| `Subscriptions.RefusedExactly` | apps/api/src/billing/subscriptions.service.ts:76-161 | a grant meets a unique index if and only if the user's live row is INCOMPLETE or the plan changes inside one provider subscription |
| `Subscriptions.GrantKeepsOneEntitling` | apps/api/src/billing/subscriptions.service.ts:76-161 | without help from an index a grant keeps at most one entitling row per user |
| `Subscriptions.GrantKeepsOneLiveExactly` | apps/api/prisma/migrations/20260914120000_add_billing_and_notifications/migration.sql:158-165 | retiring before creating keeps live rows unique, with its one exception |
| `Subscriptions.CancelKeepsOneLive` | apps/api/src/billing/subscriptions.service.ts:173-196 | so does cancelling, at once or at period end |
| `Subscriptions.SweepKeepsOneLive` | apps/api/src/billing/subscriptions.service.ts:255-285 | so does the expiry sweep |
| `Subscriptions.PastDueKeepsOneLiveExactly` | apps/api/src/billing/subscriptions.service.ts:198-203 | marking past due does if and only if the row is live or the user has no live row |
| `Subscriptions.AlwaysOneEntitling` | apps/api/prisma/migrations/20260914120000_add_billing_and_notifications/migration.sql:158-165 | in every run a user has at most one entitling subscription, and it is the one every service finds |
| `Subscriptions.PaidPeriodsDisjoint` | apps/api/src/billing/invoices.service.ts:294-310 | over sequential payments for one plan no two paid periods share time |
| `Subscriptions.PaidPeriodLengths` | apps/api/src/billing/invoices.service.ts:294-310 | each lasts 86 400 000 ms for every day paid for, at least one, and starts no earlier than its payment |
| `Subscriptions.PaidDaysAddUp` | apps/api/src/billing/invoices.service.ts:289-310 | over sequential payments for one plan the periods, which share no time, last as long as all the days paid for |
| `Subscriptions.PaidExactly` | apps/api/src/billing/subscriptions.service.ts:47-66 | a payment is granted if and only if its plan is offered, its event is new and the user has a current row or no INCOMPLETE one |
| `Subscriptions.EntitledExactlyWhenPaid` | apps/api/src/billing/entitlements.service.ts:93-114 | at any time the user has the paid plan if and only if a paid period contains it, whether or not a sweep has come by |
| `Subscriptions.PaymentFollowsCurrentExactly` | apps/api/src/billing/invoices.service.ts:297-302 | a payment starts after what is left of the current period if and only if that is over or an ACTIVE one of the same plan |
| `Subscriptions.SweepHarmlessExactly` | apps/api/src/billing/subscriptions.service.ts:255-271 | whatever rows it names, a sweep changes nothing for a user from then on if and only if it does not name a current row of an offered plan that is not over |
| `Subscriptions.ReadAtOnceSpares` | apps/api/src/billing/subscriptions.service.ts:257-271 | a sweep that writes at once names no such row |
| `Subscriptions.StaleSweepEndsPaidPeriod` | apps/api/src/billing/subscriptions.service.ts:257-271 | one whose read came before a renewal does, and takes the renewed period away |
| `Subscriptions.Current` | apps/api/src/billing/subscriptions.service.ts:32-37 | the user's last created entitling row, or none |
| `Subscriptions.CurrentExactly` | apps/api/src/billing/subscriptions.service.ts:32-37 | the row found is that user's, TRIALING, ACTIVE or PAST_DUE, with no later such row of theirs |
| `Subscriptions.ResolveExactly` | apps/api/src/billing/entitlements.service.ts:93-114 | a user may use a plan if and only if the current row is for it, its period is not over and the plan is still offered |
| `Subscriptions.IndexedExactly` | apps/api/prisma/migrations/20260914120000_add_billing_and_notifications/migration.sql:158-165 | the unique indexes hold if and only if no two rows are both live and of one user, or of one provider subscription |
| `Subscriptions.SubscriptionsService.GrantPlan` | apps/api/src/billing/subscriptions.service.ts:47-166 | replay, renewal, switch and creation in one transaction, with each refusal; the row it leaves field by field, and the others |
| `Subscriptions.GrantWrites` | apps/api/src/billing/subscriptions.service.ts:68-161 | a grant renews the current row in place if plan and provider subscription agree, else retires it for a new one; the values asked for, or their defaults |
| `Subscriptions.SubscriptionsService.GrantPeriod` | apps/api/src/billing/invoices.service.ts:294-310 | the row ends at least one day, or as many as paid for, after the end of a current ACTIVE period of the plan, else after now |
| `Subscriptions.SubscriptionsService.CancelPlan` | apps/api/src/billing/subscriptions.service.ts:173-196 | only the current row changes: canceled at once, or marked to end with its period; an error when there is none |
| `Subscriptions.SubscriptionsService.MarkPastDue` | apps/api/src/billing/subscriptions.service.ts:198-203 | the row is past due, or nothing changes because it was dead and the user has a live one |
| `Subscriptions.SubscriptionsService.FindLapsed` | apps/api/src/billing/subscriptions.service.ts:257-264 | lapsed rows only, and all of them up to 500 |
| `Subscriptions.SubscriptionsService.Expire` | apps/api/src/billing/subscriptions.service.ts:268-271 | the rows named are expired whenever they were read, no other |
| `Subscriptions.SubscriptionsService.ExpireLapsed` | apps/api/src/billing/subscriptions.service.ts:255-285 | one after the other: rows lapsed now are expired, no other |
| `Seeding.SeedStore.GenerateListings` | apps/api/seed/generators/generateListings.ts:43-91 | from any sound store, dying anywhere leaves a sound one, and unless it dies it leaves the table of an uninterrupted run |
| `Seeding.SeedStore.RunStage` | apps/api/seed/generators/generateListings.ts:59-73 | one stage from its saved cursor on: rows are made of each item left, once, and a batch is stored and its cursor saved as soon as an item fills it, and at the end |
| `Seeding.PlanInFull` | apps/api/seed/generators/generateListings.ts:59-83 | row by row what is seeded: each product's listings at consecutive stores, every product one store further, then the challenges round products and stores |
| `Seeding.SeedStore.Flush` | apps/api/seed/generators/generateListings.ts:126-154 | rows first, cursor second: a saved cursor never runs ahead of the table |
| `Seeding.SeedStore.InsertProducts` | apps/api/seed/generators/generateProducts.ts:109-125 | the same for products, in slices of the batch size from the checkpoint on, each row handed over once |
| `Seeding.SeedWithRestarts` | apps/api/seed/generators/generateListings.ts:43-91 | any number of crashes and restarts; only as many deaths as attempts can keep it from finishing; tables stay one row per key |
| `Seeding.EnoughAttempts` | apps/api/seed/generators/generateListings.ts:43-91 | if there are fewer deaths than attempts, one attempt gets through |
| `Seeding.ResumeInserts` | apps/api/seed/utils/batchInsert.ts:31-39 | inserting a stretch that overlaps what is stored equals inserting everything once |
| `Seeding.InsertedIsBlocked` | apps/api/seed/utils/batchInsert.ts:31-39 | an inserted row is stored or kept out by one that is |
| `Seeding.InsertKeepsOnePerKey` | apps/api/seed/utils/batchInsert.ts:31-39 | insert-or-ignore keeps one row per key |
| `Seeding.NewRowsAreStored` | apps/api/seed/utils/batchInsert.ts:31-39 | rows with new keys are all stored, in order |
| `Seeding.PendingIsPlanned` | apps/api/seed/generators/generateListings.ts:55-73 | a batch is the part of the plan between its two cursors |
| `ProductEnumeration.DecodeProduct` | apps/api/seed/generators/generateProducts.ts:127-153 | each attribute is the choice of its own mixed-radix digit; empty lists take no digit and fall back |
| `ProductEnumeration.DecodedInFull` | apps/api/seed/generators/generateProducts.ts:127-153 | every field by itself: the list's value that changes whenever the lists before it have gone through all their combinations |
| `ProductEnumeration.BuildProductSeeds` | apps/api/seed/generators/generateProducts.ts:97-107 | catalogues take turns; a missing category stops the seed |
| `ProductEnumeration.IndexRoundTrip` | apps/api/seed/generators/generateProducts.ts:99-101 | index and (catalogue, local index) determine each other |
| `ProductEnumeration.DigitsReencode` | apps/api/seed/generators/generateProducts.ts:128-134 | the digits re-encode to the local index, up to whole turns |
| `ProductEnumeration.SameDigitsExactly` | apps/api/seed/generators/generateProducts.ts:128-134 | equal digits if and only if the local indices agree modulo the product of the non-empty sizes |
| `ProductEnumeration.EveryChoiceIsTaken` | apps/api/seed/generators/generateProducts.ts:128-134 | every combination of digits is some local index below that product |
| `ProductEnumeration.SameChoicesExactly` | apps/api/seed/generators/generateProducts.ts:136-151 | the same for the attributes, when no list repeats a value |
| `ProductEnumeration.DistinctExactly` | apps/api/seed/generators/generateProducts.ts:97-107 | no product is made twice if and only if no catalogue runs past its combinations |
| `Csv.ExportRoundTripExactly` | apps/api/src/brand/export-formats.ts:8-16 | an export starts with the byte order mark, and a reader following section 2 of RFC 4180 recovers headers and cells, nothing for null, if and only if no row is without cells and, where a final line break is allowed, the last is not one empty cell |
| `Csv.CellRoundTrip` | apps/api/src/brand/export-formats.ts:8-11 | every cell reads back, whatever quotes, commas and line breaks it holds |
| `Csv.RowRoundTrip` | apps/api/src/brand/export-formats.ts:15-15 | so does every row |
| `Csv.CopyInto` | apps/api/seed/utils/batchInsert.ts:42-54 | the rows are written one after the other |
| `Csv.CopyValueRoundTrip` | apps/api/seed/utils/batchInsert.ts:56-65 | null and text stay apart, also for the text \N |
| `Csv.CopyRoundTripExactly` | apps/api/seed/utils/batchInsert.ts:42-65 | a COPY stream gives back every row if and only if no row is without columns |

## Left out

- CatalogueUndo.UndoRestores: one merge undone right after it; what later merges do to it is in `CatalogueChains` and `CatalogueWatches`.
- CatalogueUndo.MergedConsistent: unique slugs are not part of it; slugs are not modelled.
- CatalogueUndo.UndoneConsistent: nor here.
- Reconciliation.ReconciliationService.MergeCanonicals: the move of a phone accessory to its own category is not modelled.
- Reconciliation.ReconciliationService.UndoMerge: the suffix a taken slug gets is not modelled.
- CatalogueFields.IdentifierKeptExactly: for the rows of one run, all read before it; nothing is claimed across runs.
- CatalogueWatches.NewestFirstWatchesExactly: about the set of (user, product) pairs; recreated rows have new ids.
- Reconciliation.ReconciliationService.Reconcile: product rows a pair names are read once and assumed unchanged by others during the loop; stored verdicts, the normalizer's rules verdict and logging are not modelled.
- Settlement.EachSourceGrantsOnce: at most one grant; `Settlement.PaidIsGranted` says when a paid invoice has one.
- Billing.Billing.GrantPlan: only the event key and the grant are kept here; the subscription rows of a grant are in `Subscriptions`.
- Billing.Billing.Submit: whether the method is offered and the reference is long enough and new is an input; the owner check is not modelled, nor in `Cancel`.
- Subscriptions.PaidPeriodsDisjoint: payments one after the other; two concurrent grants read the current period outside the transaction and may overlap.
- Subscriptions.SubscriptionsService.GrantPlan: trial ends, limit overrides, customer ids, providers and reminders of a row are not modelled, nor the event log beyond its unique key.
- Subscriptions.SubscriptionsService.MarkPastDue: the event row written after the update is not modelled.
- Subscriptions.SubscriptionsService.ExpireLapsed: nothing happens between its read and its update; `Expire` alone stands for the update at any later time.
- Subscriptions.SubscriptionsService.FindLapsed: takes the first rows of the table where the query states no order; the lemmas are about any set of rows.
- Sessions.StepKeepsCap: a process that dies between inserting a session and the clean-up leaves more than five until the next login.
- Seeding.SeedStore.Flush: the hand-over of a batch to the price-history generator and the stored row counter are not modelled.
- Seeding.SeedWithRestarts: the generated rows are the same in every run, as they are when the seed's clock is pinned; price history, which is buffered past the checkpoint, and the stored row counters are not modelled.
- Csv.ExportRoundTripExactly: cells are given as the text `String()` makes of them; null reads back as the empty text.
- Csv.CopyRoundTripExactly: dates and JSON values are given as their text.
- CartWatch.CartWatchService.EvaluateAll: the batch's read and its writes are one step, the basket prices are inputs (`Basket` computes them), a notice counts as given even if sending it fails, and the dispatcher's own deduplication is not modelled.
- DealScore.LowerPriceNeverWorsensVerdict: the verdict only; its texts, confidence and the misleading-discount check are not modelled.
- `percentile`, `filterPriceOutliers`, history statistics: would only repeat what is proved of the median and the market filter.
- `cleanItems`, `dedupePairs`, `interleave`, order codes and the retry loop of `startOrder`: easy members.
- Candidate queries, the text normalizer, hard-conflict and chip rules: regular expressions and SQL; they appear as inputs.
- Other tables that point at a product, and what the database deletes with it.
- The entitlement cache and plan limits, trial handling, Stripe, Paymob and Telegram traffic, notification texts, PDF export, Nest wiring.
- Floating-point rounding: scores and totals are real numbers here.
- JWT, bcrypt and SHA-256: a token stands for its session.
