# Verified model of the limit order books

This project models the order book reconstruction of this repository in Dafny and proves what it
promises: the Bitstamp book of orders and price levels, the Bitstamp snapshot reconciliation, the
pre-filter in front of every book, the OKX and Kraken book, the offline rebuild, the migration
runner, the reconnect backoff and the instrument list. Run `dafny verify dfyconfig.toml`.

## How the model is built

- Prices and sizes are reals. A level that fails to parse is `None` in a list of wire levels, and an
  order field that fails to parse is `None` in an order entry; the code treats both parse failures of
  a level alike.
- One side of a book is a map from price to amount, as the tree is; `Listing` is the tree's iteration
  order (bids downwards, asks upwards) and `Best` its first key.
- Objects that the source updates in place are classes (`BitstampBook.OrderBook`,
  `BitstampConnection.Connection`, `BatchBook.OrderBook`, `LobRebuild.LobReader`,
  `Migrations.QuestDbMigrator`). Each method is proved equal to a function on the object's value, and
  the properties are proved about those functions over whole runs.
- The OKX and Kraken books differ only in how levels are decoded, so `BatchBook` is both.
- `LevelLaws` says what applying level changes means without any function the books use: which entries
  of a list count, and that at each price the last of them decides. `BitstampLaws` and `BatchLaws` hold
  the books against it for every kind of message, both sides and every filter. The hypotheses about the
  exchange in `BitstampConvergence` are stated in the same terms.
- The REST reply, the outcome of every SQL call, the jitter and the way a connection ends are inputs.
- Automatic induction is switched off on every lemma, so each induction is written out in its body.

## What is proved

1. *Every message* (`BitstampLaws`, `BatchLaws`): the book after it, entry by entry: which entries of a
   diff, an update, a snapshot or an order event count under each filter, from the arithmetic of the
   percentage, the moving or fixed count, the anchor, the stable sort and the depth cut.
2. *Orders and levels agree* (`BitstampOrders`): in every run of order events under any filter, a
   price is a level exactly when the orders there have a non-zero sum, which is stored; the live
   orders are those each id's own accepted entries say; best price and total size are those of the
   live orders; the filtered orders stay among the unfiltered ones exactly as long as no refused
   entry would have changed a live order.
3. *Filtered books* (`BitstampFilterRuns`, `BatchRuns`, `TopLevels`): size bounds, exact submap of the
   unfiltered book, no price the unfiltered book lacks, for each filter what exactly it keeps, when
   exactly a snapshot replaces a side, and when exactly any batch under MaxLevel(n) keeps a side the
   best n levels of the unfiltered one.
4. *Reconciliation* (`BitstampConservation`, `BitstampConvergence`): every update is held, discarded
   or applied once in order; the book converges to the exchange's own book although stale live diffs
   are not discarded; the filtered book is an exact, bounded part of it. After a late snapshot the
   book is the true one exactly when no change in the gap shows; after a failed request it holds
   exactly the true levels of the prices that changed since.
5. *Offline rebuild* (`LobRebuild`): one entry per maximal run of equal timestamps, holding what the rows
   since the last clearing row make of an empty book, written out in full chunks without loss.
6. *Migrations, backoff, instrument list*: safety under arbitrary call failures, exact delay bounds,
   and a parse/print round trip over all three written forms, with any white space around them.

## Where the code and its documentation differ

The model follows the code.

- `docs/ADR-002-20260716-lob2-in-memory-order-book-reconstruction.md:15` says a snapshot replaces all levels
  unconditionally. The OKX and Kraken books skip a side whose list is empty before or after filtering.
  A snapshot replaces a side exactly when the side was empty or its list survives: without a filter it
  is non-empty; under `MaxLevel(n)`, n is at least 1 and some level is positive; under `MaxLevelPct`,
  some entry does not parse, removes, or lies in the window of the list's own best price
  (`SnapshotReplacesExactlyWhen`, `SnapshotReplacesBothExactlyWhen`). With a bid stored at 1.0, a
  snapshot of asks alone leaves that bid in place (`OldBidOutlivesSnapshot`).
- `rs/src/traits/mod.rs:18` says `MaxLevel` keeps the top N best levels per side. It does not: at
  `MaxLevel(1)`, a side with a bid at 1.0 refuses a bid at 2.0 (`BetterBidIsRefused`); an empty OKX or
  Kraken side takes bids at 1.0 and 2.0 from one update, since the count is read once
  (`TwoBidsOvershoot`); an empty Bitstamp side keeps only the 1.0 of these, since the count moves inside
  the batch (`SecondBidIsRefused`). Let a side be the top n of the unfiltered side. Then, for every batch:
  - A full side of either book stays the top n exactly when the batch removes none of its prices and
    every new price it sets is worse than all of them; or it removes some, and afterwards the unfiltered
    side has no price outside those of this side (`TopLevels.FullSideBatch`).
  - An OKX or Kraken side with room stays so exactly when it has at most n levels after the whole batch
    (`BatchRuns.UpdateKeepsTopExactlyWhen` with the case above).
  - A Bitstamp side with room takes the batch up to the entry that fills it, and after that only removals
    and changes to prices it held before the batch (`DiffKeepsExactly`). It stays the top n exactly when
    no price refused after that is still held at an older amount, and either no refused price is missing,
    or the unfiltered side has n levels besides the missing ones and all of them are better
    (`DiffKeepsTopExactlyWhen`). When no price comes twice, the missing prices are the refused ones
    (`DistinctRefusedAreMissing`).
  - A Bitstamp snapshot keeps its first n positive levels, which are the top n exactly when no later
    entry gives one of their prices another amount, and either no later entry brings another price, or
    the first n are n prices better than all those; an OKX or Kraken snapshot sorts its positive levels
    best first before that cut (`SnapshotIsTopExactlyWhen` of each).
- `docs/lob-data-processing.md:11` says a snapshot row clears all levels. The reader clears once per run
  of equal timestamps. After a snapshot row the book is that row's levels alone exactly when no earlier
  row of its run was a snapshot row, or the book held no price but the row's own
  (`SnapshotRowReplacesExactlyWhen`); of two such rows of one timestamp with bids at 1.0 and 2.0, both
  bids stay (`SecondSnapshotRowKeepsTheFirst`).
- `rs/tests/questdb_migration.rs:130` expects a second run to change nothing. `list_applied` reads a
  failure of its own table creation as "nothing applied", so a run after complete success sends
  migration SQL again exactly when that table creation fails after the first one succeeded and the
  list is not empty (`RerunSendsExactlyWhen`). It records a row again exactly when, besides, the first
  migration it sends succeeds and the call that records it takes effect (`RerunRecordsExactlyWhen`).
- `docs/ADR-012-20260722-websocket-reconnect-with-exponential-backoff.md:28-30` promises a delay capped
  at 60 s, retrying indefinitely. As an upper bound the cap always holds, up to the jitter; what ends is
  the plateau: after 2^31 failures in a row the cast to `i32` wraps and the delay is at most 1499 ms
  (`PlateauHoldsUntilWrap`). Line 29 gives jitter up to 1000 ms; the code's range ends at 999.
- `rs/src/main.rs:45` shows `@exchange` after a full pair. It reuses the symbol before it only if some
  earlier entry was `symbol@exchange`; after bare symbols alone it is dropped (`ShortNeedsAFullForm`).

One property that the documentation does not claim but a reader may expect fails too: under
`MaxLevel(1)` a Bitstamp order at 1.0 that moves to 3.0 is refused, so the filtered book keeps the level
1.0, which the unfiltered book has lost (`RefusedMoveKeepsOldLevel`, `OrdersWithinExactlyWhen`).

## Model

| member | source | states |
|---|---|---|
| PriceLevels.UpsertAt | rs/src/bitstamp/lob.rs:449-475 | closed form of a list of level changes: per price the last change wins and zero removes |
| PriceLevels.StaleReplay | rs/src/bitstamp/ws.rs:458-459 | re-applying in order changes that a side already contains gives the same side back |
| PriceLevels.FromSnapshotDistinct | rs/src/bitstamp/lob.rs:423-445 | a snapshot with distinct positive prices stores exactly its positive levels |
| PriceLevels.Listing | rs/src/okx/lob.rs:22-32 | the iteration order of a side: every level once, strictly best first |
| PriceLevels.Best | rs/src/bitstamp/lob.rs:59-65 | the best price is a stored price that no stored price beats, absent exactly for an empty side |
| LevelLaws.AppliedByIsUnique | rs/src/bitstamp/lob.rs:449-475 | a side, a list and the entries that count leave only one side that they can lead to |
| LevelLaws.WindowIsAPercentage | rs/src/traits/mod.rs:45-58 | the window is a distance of at most pct percent of the best price, on either side, and everything when there is no best price |
| MapSums.SumValues | rs/src/bitstamp/lob.rs:478-485 | adding the values in any visiting order gives the one total of the map |
| MapSums.GroupedTotal | rs/src/bitstamp/lob.rs:102-129 | grouping sizes by price and dropping zero groups conserves the total |
| BitstampBook.OrderBook.constructor | rs/src/bitstamp/lob.rs:42-49 | a new book is empty with the given snapshot depth |
| BitstampBook.OrderBook.BestBid | rs/src/bitstamp/lob.rs:59-61 | the highest stored bid, absent exactly when there is none |
| BitstampBook.OrderBook.BestAsk | rs/src/bitstamp/lob.rs:63-65 | the lowest stored ask, absent exactly when there is none |
| BitstampBook.OrderBook.RebuildPriceLevel | rs/src/bitstamp/lob.rs:102-129 | sets one level to the sum of the orders there, removing it at zero, and touches nothing else |
| BitstampBook.OrderBook.ApplyOrder | rs/src/bitstamp/lob.rs:135-211 | the new state of orders and levels for insert, amend, move, removal and bad input |
| BitstampBook.OrderBook.FilterSnapshot | rs/src/bitstamp/lob.rs:266-334 | the kept snapshot levels, anchored at the first positive level or else the book |
| BitstampBook.OrderBook.FilterDiff | rs/src/bitstamp/lob.rs:337-390 | the kept diff levels, with the counter moving inside the batch |
| BitstampBook.OrderBook.FilterOrderEntry | rs/src/bitstamp/lob.rs:393-418 | an entry passes exactly when it parses and the filter includes it on its own side |
| BitstampBook.OrderBook.ApplySnapshot | rs/src/bitstamp/lob.rs:423-445 | forgets orders and levels and stores the positive levels among the first snapshot_depth |
| BitstampBook.OrderBook.ApplyDiff | rs/src/bitstamp/lob.rs:449-475 | both sides become the fold of their changes, orders untouched |
| BitstampBook.OrderBook.ProcessMsg | rs/src/bitstamp/lob.rs:214-263 | dispatch by message kind with or without a filter |
| BitstampBook.OrderBook.TotalBidSize | rs/src/bitstamp/lob.rs:478-480 | the total of all bid levels |
| BitstampBook.OrderBook.TotalAskSize | rs/src/bitstamp/lob.rs:483-485 | the total of all ask levels |
| BitstampLaws.DiffMessage | rs/src/bitstamp/lob.rs:337-390 | a diff applies to each side exactly the entries its filter lets through: removals; under MaxLevel(n) stored prices and what comes before n levels are counted; under pct what is within pct percent of the side's best price |
| BitstampLaws.EmptySideTakesAll | rs/src/traits/mod.rs:47-50 | under any pct a side with nothing stored takes a diff as if there were no filter |
| BitstampLaws.SnapshotMessage | rs/src/bitstamp/lob.rs:266-445 | a snapshot makes each side exactly its positive entries: the first n, or those within pct percent of the first positive one, or all; cut at the depth from the front; orders are forgotten |
| BitstampLaws.FirstPositiveIs | rs/src/bitstamp/lob.rs:267-286 | the anchor is the price of the first positive entry, absent exactly when none is positive |
| BitstampLaws.DepthCutKeepsBest | rs/src/bitstamp/lob.rs:428-437 | of a best-first snapshot longer than the depth, the book lists the first depth levels that the uncut book lists |
| BitstampLaws.PctSnapshot | rs/src/bitstamp/lob.rs:266-334 | filtering a snapshot by pct and building it is building it and keeping what is within pct percent of its first positive level |
| BitstampLaws.BestFirstWindow | rs/src/bitstamp/lob.rs:266-286 | for a best-first snapshot that is the window around the best price of the unfiltered side |
| BitstampLaws.OrderMessage | rs/src/bitstamp/lob.rs:135-211 | an order entry sets or removes its own order and rebuilds exactly the level it leaves and the level it joins |
| BitstampLaws.FilteredOrderMessage | rs/src/bitstamp/lob.rs:393-418 | under a filter an entry acts as without one or not at all: removals always, stored prices and prices with room under MaxLevel, prices within pct percent of the best of its own side under pct |
| BitstampLaws.OtherMessage | rs/src/bitstamp/lob.rs:214-263 | a message without levels or an order changes nothing |
| BitstampOrders.OrderKeepsAgreement | rs/src/bitstamp/lob.rs:135-211 | rebuilding one or two levels per event keeps every level equal to the sum of its orders |
| BitstampOrders.OrderRunAgrees | rs/src/bitstamp/lob.rs:102-211 | in every order run under any filter a price is a level exactly when its orders sum to non-zero, and stores that sum |
| BitstampOrders.OrdersAreLive | rs/src/bitstamp/lob.rs:135-211 | the order map holds per id what that id's own accepted entries say, whatever happens to other ids |
| BitstampOrders.RemovedStaysRemoved | rs/src/traits/mod.rs:28-44 | no filter keeps the removal of an order out, and the order stays gone until its id is seen again |
| BitstampOrders.BestIsBestLiveOrder | rs/src/bitstamp/lob.rs:59-65 | with non-negative amounts the best price of a side is the best price among its live orders |
| BitstampOrders.TotalIsLiveTotal | rs/src/bitstamp/lob.rs:478-485 | the total over the levels of a side is the total over its live orders |
| BitstampOrders.OrderRunSize | rs/src/bitstamp/lob.rs:393-418 | under MaxLevel no order run with non-negative amounts exceeds max levels on a side, moves of price and side included |
| BitstampOrders.OrdersWithinExactlyWhen | rs/src/bitstamp/lob.rs:135-263 | at every point of an order run the filtered orders are among the unfiltered ones, exactly as long as no refused entry would have changed a live order |
| BitstampOrders.HarmlessRunShowsTruePrices | rs/src/bitstamp/lob.rs:135-263 | in such a run with non-negative amounts the filtered book shows only prices of the unfiltered one |
| BitstampOrders.RefusedMoveKeepsOldLevel | rs/src/bitstamp/lob.rs:393-418 | one input: a refused move leaves the order's old level, which the unfiltered book has lost |
| BitstampFilterRuns.SnapshotKeepsFirst | rs/src/bitstamp/lob.rs:288-327 | under MaxLevel a snapshot keeps exactly its first max positive levels |
| BitstampFilterRuns.KeptInDiffFacts | rs/src/bitstamp/lob.rs:337-390 | removals survive either diff filter, changes to existing prices survive MaxLevel, and nothing is invented |
| BitstampFilterRuns.DiffDropsOnlyWhenFull | rs/src/bitstamp/lob.rs:337-390 | under MaxLevel a change is lost only once kept changes at new prices have filled the side |
| BitstampFilterRuns.LevelRunSize | rs/src/bitstamp/lob.rs:288-390 | under MaxLevel every snapshot/diff run stays within max levels per side, duplicates and re-adds included |
| BitstampFilterRuns.PctDiff | rs/src/bitstamp/lob.rs:337-390 | a diff under pct: nothing is lost within pct percent of the best stored price, or when nothing is stored; elsewhere only removals get through |
| BitstampFilterRuns.NoGhostPrices | rs/src/bitstamp/lob.rs:266-390 | under any filter a snapshot/diff run shows only prices of the unfiltered book |
| BitstampFilterRuns.MaxLevelIsExactSubmap | rs/src/bitstamp/lob.rs:266-390 | with distinct prices per message every level of the MaxLevel book is in the unfiltered book with the same size, at every point of every run |
| BitstampFilterRuns.DuplicatePriceBreaksExactness | rs/src/bitstamp/lob.rs:337-360 | why distinct prices: of two changes at one new price the second can be refused, so exactness holds only if they agree |
| BitstampFilterRuns.RoomyRunIsUnfiltered | rs/src/traits/mod.rs:59-64 | MaxLevel drops nothing while there is room: the filtered run equals the unfiltered one |
| BitstampFilterRuns.DiffKeepsExactly | rs/src/bitstamp/lob.rs:337-390 | under MaxLevel a diff is kept whole up to the entry that fills the side, and from there on exactly its removals and changes to prices held before |
| BitstampFilterRuns.DiffKeepsTopExactlyWhen | rs/src/bitstamp/lob.rs:337-390 | for every diff, repeated prices included, a side that is the top n of the unfiltered side stays so exactly when DiffKeepsTop holds of the inputs |
| BitstampFilterRuns.DistinctRefusedAreMissing | rs/src/bitstamp/lob.rs:337-390 | when no price comes twice, what the filtered side lacks is what was refused, and nothing it holds is out of date |
| BitstampFilterRuns.SnapshotIsTopExactlyWhen | rs/src/bitstamp/lob.rs:266-334 | for every snapshot within the depth, the MaxLevel(n) side is the top n of the unfiltered one exactly when its first n positive levels are the best and current ones |
| BitstampFilterRuns.SecondBidIsRefused | rs/src/bitstamp/lob.rs:337-390 | one input: of two new bids on an empty side at MaxLevel(1) the better second one is refused |
| TopLevels.TopIffListing | rs/src/traits/mod.rs:18 | the n best levels of a side, as exact levels better than all the rest, are the first n of its listing and no others |
| TopLevels.FullSideBatch | rs/src/traits/mod.rs:59-64 | for every batch, a full side that takes only what concerns its own prices stays the top n exactly when it loses nothing and nothing new beats it, or it loses something and nothing is left outside it |
| BitstampConnection.Connection.constructor | rs/src/bitstamp/ws.rs:309-318 | each connection starts with an empty book, an empty buffer and clear flags |
| BitstampConnection.Connection.Handle | rs/src/bitstamp/ws.rs:338-468 | one message: buffer, confirm, attempt the snapshot, or process live |
| BitstampConnection.Connection.Reconcile | rs/src/bitstamp/ws.rs:407-432 | applies the snapshot, empties the buffer and replays what is newer, in order |
| BitstampConnection.Connection.DiscardOlder | rs/src/bitstamp/ws.rs:411-423 | keeps in order exactly the buffered messages newer than the snapshot or without a timestamp |
| BitstampConnection.Connection.Run | rs/src/bitstamp/ws.rs:320-542 | what the read loop does to the book, the buffer and the flags is the fold of its messages |
| BitstampConservation.ConnectionIsDetermined | rs/src/bitstamp/ws.rs:338-468 | after any inputs the three flags are equal, the buffer is what is still held and the book is the fold of what it was given, all read off the inputs |
| BitstampConservation.UpdatesAreConserved | rs/src/bitstamp/ws.rs:338-468 | every update received is held, discarded or applied, exactly once, and applied ones keep their order |
| BitstampConservation.SplitByTimestamp | rs/src/bitstamp/ws.rs:411-423 | the buffer is divided without loss: kept messages have no timestamp or a later one than the snapshot, discarded ones do not |
| BitstampConservation.DiscardedExactlyWhen | rs/src/bitstamp/ws.rs:401-423 | a buffered update is discarded exactly when its timestamp is at most the reply's, or zero when the reply has none; the others are replayed |
| BitstampConservation.BufferedMessage | rs/src/bitstamp/ws.rs:338-389 | until the subscription is confirmed updates are buffered in order, and nothing else happens |
| BitstampConservation.AttemptMessage | rs/src/bitstamp/ws.rs:391-455 | the confirmation makes the one attempt: with a reply the book gets it and then in order exactly the buffered updates that are later or undated; without one buffer and book stay |
| BitstampConservation.LiveMessage | rs/src/bitstamp/ws.rs:456-459 | after the attempt every update and snapshot goes straight to the book, and nothing else changes the connection |
| BitstampConservation.OneAttempt | rs/src/bitstamp/ws.rs:391-454 | at most one snapshot request per connection, made on an empty book |
| BitstampConvergence.TrueBookAdvances | rs/src/bitstamp/lob.rs:449-475 | the exchange's book b is its book a with every price at the last of its changes in diffs a to b |
| BitstampConvergence.StaleDiffsAreHarmless | rs/src/bitstamp/ws.rs:456-459 | applying diffs the snapshot already contains, then the rest, still brings every price to its true level |
| BitstampConvergence.DiffsFold | rs/src/bitstamp/ws.rs:456-459 | the client's message loop over the messages of diffs a to b applies exactly those diffs, one after the other |
| BitstampConvergence.ReconciliationConverges | rs/src/bitstamp/ws.rs:338-459 | once diff n is handled the unfiltered book is the exchange's book after n diffs, whether the reply's timestamp is the snapshot's or missing |
| BitstampConvergence.LateStreamIsTrueExactlyWhen | rs/src/bitstamp/ws.rs:391-432 | with a snapshot older than the first diff received, the book is true exactly when every price is rewritten later or the same on both sides of the gap |
| BitstampConvergence.FailedRequestBook | rs/src/bitstamp/ws.rs:432-454 | after a failed snapshot request the book holds exactly the true levels of the prices changed since, an exact submap of the true book |
| BitstampConvergence.FilteredReconciliation | rs/src/bitstamp/ws.rs:303-310 | the MaxLevel book a client keeps is bounded and every level of it is exact in the true book |
| BitstampConvergence.FilteredPricesAreTrue | rs/src/bitstamp/ws.rs:303-310 | under either filter a reconciled book shows only prices of the true book |
| BatchSpec.BestPrice | rs/src/okx/lob.rs:199-211 | the batch's best price is a price of the batch that none beats, zero amounts included |
| BatchBook.OrderBook.ApplySnapshot | rs/src/okx/lob.rs:113-136 | replaces one side by the positive levels, the other side untouched |
| BatchBook.OrderBook.ApplyUpdate | rs/src/okx/lob.rs:142-163 | one side becomes the fold of the changes, the other side untouched |
| BatchBook.OrderBook.FindBestPrice | rs/src/kraken/lob.rs:169-179 | the loop finds the best price of the batch |
| BatchBook.OrderBook.ProcessMsg | rs/src/okx/lob.rs:167-196 | bids then asks, each filtered and applied unless its list is empty before or after filtering |
| BatchLaws.UpdateMessage | rs/src/okx/lob.rs:175-194 | an update applies to each side exactly the entries its filter lets through, judged by that side as it was: removals; under MaxLevel stored prices, or all with room; under pct what is within pct percent of its best price |
| BatchLaws.EmptySideTakesAll | rs/src/traits/mod.rs:47-50 | under any pct a side with nothing stored takes an update as if there were no filter |
| BatchLaws.SnapshotMessage | rs/src/kraken/lob.rs:145-164 | a snapshot, or a message without an action, replaces each side by exactly its positive entries: all, the n with fewer than n ahead of them in price and order, or those within pct percent of the list's best price; a side of which nothing is left stays |
| BatchLaws.OtherMessage | rs/src/okx/lob.rs:167-174 | a message without data or with another action changes nothing |
| BatchBook.OrderBook.BestBid | rs/src/okx/lob.rs:52-55 | the highest stored bid, absent exactly when there is none |
| BatchBook.OrderBook.BestAsk | rs/src/okx/lob.rs:57-60 | the lowest stored ask, absent exactly when there is none |
| BatchLaws.TopLevelsExactly | rs/src/okx/lob.rs:70-78 | top_bids and top_asks show exactly the levels with fewer than n better ones, best first |
| BatchLaws.LevelsWithinPctExactly | rs/src/okx/lob.rs:80-111 | levels_within_pct shows exactly the stored levels within pct percent of the best stored price, best first |
| BatchRuns.SortBySorts | rs/src/okx/lob.rs:253-267 | the sort yields a best-first permutation |
| BatchRuns.FilterThenBuildIsBuildThenTake | rs/src/kraken/lob.rs:217-231 | a snapshot side under MaxLevel(n) is exactly what top_bids(n) or top_asks(n) reads off the book built without a filter |
| BatchRuns.MaxLevelUpdate | rs/src/okx/lob.rs:272-308 | with room a batch is applied whole, without room exactly its effect on existing prices remains |
| BatchRuns.MaxLevelIsExactSubmap | rs/src/okx/lob.rs:167-308 | at every point of every run the MaxLevel book is an exact submap of the unfiltered one, for every max |
| BatchRuns.SnapshotWithoutLevels | rs/src/okx/lob.rs:177-194 | a snapshot side with no positive level breaks exactness exactly when the filtered side held something |
| BatchRuns.MaxLevelSideSize | rs/src/kraken/lob.rs:236-268 | a side at or above max never grows through an update, a side below it grows by at most the batch |
| BatchRuns.RunSize | rs/src/okx/lob.rs:272-308 | every reachable book stays within max - 1 plus one batch per side |
| BatchRuns.BoundIsReached | rs/src/okx/lob.rs:285-301 | that bound is reached for every max and batch size |
| BatchRuns.PctSnapshotIsTheWindow | rs/src/okx/lob.rs:177-252 | a snapshot side of which something survives the window stores exactly the unfiltered levels within it; otherwise the old side stays |
| BatchRuns.SnapshotFillsItsWindow | rs/src/okx/lob.rs:80-111 | after a snapshot side is applied under pct, levels_within_pct(pct) shows all of it in order |
| BatchRuns.PctUpdate | rs/src/kraken/lob.rs:236-268 | an update under pct: nothing is lost within pct percent of the best stored price, or when nothing is stored; elsewhere only removals get through |
| BatchRuns.PctSnapshotNeverEmpty | rs/src/okx/lob.rs:222-252 | with non-negative prices a non-empty snapshot side never filters to nothing |
| BatchRuns.NoGhostPrices | rs/src/okx/lob.rs:167-251 | with non-negative prices the pct book never shows a price the unfiltered book lacks |
| BatchRuns.SnapshotReplacesExactlyWhen | rs/src/okx/lob.rs:177-194 | for every book, list, side and filter, a snapshot replaces the side exactly when its list survives the filter or the side was empty, and otherwise changes nothing |
| BatchRuns.SnapshotReplacesBothExactlyWhen | rs/src/okx/lob.rs:177-194 | the same for a whole message, side by side |
| BatchRuns.OldBidOutlivesSnapshot | rs/src/okx/lob.rs:177-194 | one input: a stored bid outlives a snapshot of asks alone |
| BatchRuns.NegativePriceIsNotKept | rs/src/okx/lob.rs:214-252 | one input: a single bid at a negative price is outside its own window, so the book stays as it was |
| BatchRuns.UpdateKeepsTopExactlyWhen | rs/src/okx/lob.rs:272-308 | for every update batch, a side that is the top n of the unfiltered side stays so exactly when UpdateKeepsTop holds of the inputs |
| BatchRuns.SnapshotIsTopExactlyWhen | rs/src/okx/lob.rs:253-267 | for every snapshot of which something survives MaxLevel(n), repeated prices included, the side is the top n of the unfiltered one exactly when its n best entries have n prices, or all of them, at their current amounts |
| BatchRuns.BetterBidIsRefused | rs/src/okx/lob.rs:272-308 | one input: a full side refuses a better bid, so the filtered best is not the true best |
| BatchRuns.TwoBidsOvershoot | rs/src/okx/lob.rs:285-301 | one input: an empty side at MaxLevel(1) takes two bids from one update |
| LobRebuildSpec.RowsAppliedAt | python/cryptomeria/lob.py:24-38 | per side and price the last row that carries it decides: an update of zero removes, a snapshot row stores even zero |
| LobRebuildSpec.RunsAreMaximal | python/cryptomeria/lob.py:56-68 | the rows are divided into maximal runs of equal timestamps without loss |
| LobRebuildSpec.MaximalRunsUnique | python/cryptomeria/lob.py:56-68 | there is only one such division |
| LobRebuildSpec.StateSnoc | python/cryptomeria/lob.py:64-76 | one more row against the per-run description: it clears exactly if it is the first snapshot row of its run |
| LobRebuildSpec.StateIsSinceLastClear | python/cryptomeria/lob.py:56-76 | after any rows the book is what the rows since the last first-snapshot-row of a run make of an empty book |
| LobRebuildSpec.EntryIsPrefixBook | python/cryptomeria/lob.py:56-79 | entry i is the book after the rows up to the end of run i, under that run's timestamp |
| LobRebuildSpec.SnapshotRowReplacesExactlyWhen | python/cryptomeria/lob.py:70-76 | a snapshot row leaves its own levels alone exactly when it is the first of its run or the book held no other price |
| LobRebuildSpec.SecondSnapshotRowKeepsTheFirst | python/cryptomeria/lob.py:70-76 | one input: two snapshot rows of one timestamp, a bid each, and both bids stay |
| LobRebuildSpec.YieldedEntriesNeverChange | python/cryptomeria/lob.py:64-66 | more rows never change the entry of a finished run |
| LobRebuildSpec.SnapshotForgetsThePast | python/cryptomeria/lob.py:70-73 | from the first snapshot row of a run the book depends on the rows from there on alone |
| LobRebuild.LobReader.ApplyLevel | python/cryptomeria/lob.py:24-38 | one level of one dict: skipped, stored or removed |
| LobRebuild.LobReader.Consume | python/cryptomeria/lob.py:57-76 | one row keeps the reader in step with the specification and yields the entry of a run it ends |
| LobRebuild.LobReader.ReadLob | python/cryptomeria/lob.py:41-79 | for any rows in any batches, one entry per maximal run, equal to the fold up to its end |
| LobRebuild.WriteTables | python/cryptomeria/lob.py:147-169 | the tables concatenate to the serialised books, every table but the last of the flush size |
| LobRebuild.RebuildToLob2 | python/cryptomeria/lob.py:108-169 | reading and writing together |
| LobRebuild.OutputIsLossless | python/cryptomeria/lob.py:95-105 | each written row shows its book's levels in order under its timestamp, and reading the arrays back gives every book again |
| LobRebuild.ChunksUnique | python/cryptomeria/lob.py:157-169 | the chunk sizes leave no freedom in how rows are grouped |
| Migrations.QuestDbMigrator.ExecuteSql | rs/src/migrate.rs:37-54 | one call, which may fail with or without its effect |
| Migrations.QuestDbMigrator.ListApplied | rs/src/migrate.rs:80-104 | reports the recorded migrations, or none when its table creation fails |
| Migrations.QuestDbMigrator.RunMigrations | rs/src/migrate.rs:106-149 | the run stops at the first failed call |
| MigrationRuns.AnyRunsKeepInv | rs/src/migrate.rs:106-149 | after any number of runs with any failures a prefix is recorded, SQL is sent only when all earlier migrations are recorded, and recorded only right after its own success |
| MigrationRuns.RunKeepsInv | rs/src/migrate.rs:106-149 | a run that reports success has recorded every migration |
| MigrationRuns.RecordedRowsAreMigrations | rs/src/migrate.rs:131-143 | after any runs with any failures every recorded row carries the version and name of a migration of the list |
| MigrationRuns.RerunSendsExactlyWhen | rs/src/migrate.rs:80-83 | once all is recorded, migration SQL is sent again exactly when the listing's table creation fails after the first one succeeded |
| MigrationRuns.RerunRecordsExactlyWhen | rs/src/migrate.rs:80-149 | once all is recorded, a run adds rows to the version table exactly when, besides, the first migration sent succeeds and its recording takes effect |
| MigrationRuns.OnlyMissingAreSent | rs/src/migrate.rs:112-126 | while the table creations succeed only unrecorded migrations are sent |
| MigrationRuns.FaultFreeRunSucceeds | rs/src/migrate.rs:106-149 | a run in which no call fails succeeds, however earlier runs were cut short |
| Backoff.Reconnect | rs/src/bitstamp/ws.rs:232-262 | each wait is the delay for the failures since the last successful connection, with the u32 counter wrapping around |
| Backoff.BaseSteps | rs/src/traits/mod.rs:120-125 | six doubling steps, the cap, and the collapse after the cast wraps |
| Backoff.WrappedBase | rs/src/traits/mod.rs:120-125 | after the cast wraps, the base delay is 1000 ms divided by the power of two that the exponent then stands for |
| Backoff.PlateauHoldsUntilWrap | rs/src/traits/mod.rs:120-125 | from attempt 6 on the delay is 60 s plus jitter exactly while the attempt is below 2^31, and at most 1499 ms after |
| Backoff.JitterNeverReorders | rs/src/traits/mod.rs:69-72 | jitter can never make a later attempt wait less exactly while the earlier one is below the cap |
| Backoff.ConnectingResetsTheDelay | rs/src/bitstamp/ws.rs:242-243 | the first failure after a successful connection waits between 1000 and 1999 ms |
| Backoff.OutageWait | rs/src/bitstamp/ws.rs:239-262 | total wait of n failures in a row: between W(n) and W(n) + 999 n |
| InstrumentList.ParseInstrumentsList | rs/src/main.rs:48-85 | the loop over the trimmed parts |
| InstrumentList.ListRoundTrip | rs/src/main.rs:42-85 | any list printed in full, short or bare forms parses back to the same list |
| InstrumentList.PaddedRoundTrip | rs/src/main.rs:48-58 | with any white space around its parts a printed list parses to the same pairs |
| InstrumentList.WhiteSpace | rs/src/main.rs:55 | trimming goes by the 25 White_Space characters of Unicode |
| InstrumentList.BlankPartIsSkipped | rs/src/main.rs:55-58 | a part of white space alone counts for nothing, wherever it stands |
| InstrumentList.ShortNeedsAFullForm | rs/src/main.rs:60-69 | a short form is honoured exactly when a full form came before it |

## Left out

- Network, TLS, HTTP, database client, actix server, signals and clocks: replaced by inputs.
- JSON decoding, number and timestamp parsing and message classification: the model starts from decoded messages; trades, events and unknown messages carry nothing the books use.
- Float rounding, NaN and negative zero: prices and sizes are reals, so sums are exact and Kraken's NaN check never fires.
- Backoff.Reconnect: does not model the overflow panic of a debug build after 2^32 failures in a row; the counter wraps as in a release build.
- BitstampConnection.Connection.Run: does not model that live messages are also persisted and counted, nor how a close, an error or a shutdown ends the loop; the inputs are the messages read before that.
- LobRebuild.OutputIsLossless: does not model the JSON text of an array, because a row holds its levels as a sequence.
- Metrics, status map, logging, display, instrument tables, alias lookup and fallback: presentation or small finite tables.
- The OKX and Kraken reconnect loops: the same shape as Bitstamp's.
- Shutdown during backoff: no promptness is claimed.
- Columns of a recorded migration other than version and name, and rows of the version table that do not decode.
- Progress counting of the rebuild, and closing its writer.
- `spread`, and `levels_within_pct` of the Bitstamp book: the latter is the same function as the OKX one.
