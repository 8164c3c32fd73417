# Stationary-band trader (trading_algo.py) in Dafny

A model of the `Trader` of trading_algo.py, the single-strategy trading bot of
the IMC-Prosperity repository, with proofs about it.

Each tick, `run` does three things:

- **`update_hist`** records a fair price for every listed product. The fair price is the median of the book expanded by volume: every ask price is repeated |size| times and every bid price size times.
- **`calc_expected`** estimates a band per product from the last 30 fair prices: mean ± 2 · sample standard deviation.
- **`stationary_good`** trades against that band:
  - The buy leg takes asks below the lower bound, cheapest first, up to the capacity `limit - position`. Any capacity left is posted at the lower bound.
  - The sell leg mirrors it against bids above the upper bound, with capacity `limit + position`. Any capacity left is posted at the upper bound.

Modules:

- `Market`: the host's records (`Order`, `OrderDepth`, `TradingState`), the exceptions as an `Error` datatype, and `Result`/`Option`.
- `Sorting`: Python's `sorted` on integers (`Sort`, a function of a multiset).
- `Statistics`: `statistics.median`, `mean` and `stdev` over exact reals. The square root is a parameter `sqrt: Root`, whose only known property is that it is never negative.
- `History`: the volume expansion, the fair price, and the history update (`RecordAll`).
- `Estimation`: the 30-entry window, the band, and the per-product estimate.
- `Taker`: the buy and sell walks of `stationary_good`, as functions of the book, the capacity and the bound, with their properties.
- `TradingAlgo`:
  - the constants of the constructor;
  - `Tick`, one call of `run` as a function of the history store;
  - the tick-level lemmas;
  - the imperative `Trader` class. Its methods (`UpdateHist`, `CalcExpected`, `StationaryGood`, `Dispatch`, `Run`) keep the source's loops and are each proved equal to the function that specifies them.
- `Scenarios`: worked cases on small books.

Exceptions are `Err` results. A Python `KeyError` on a missing book, an untracked history or a missing limit becomes `MissingDepth`, `MissingHistory` or `MissingLimit`. A `StatisticsError` becomes `NoData` or `NeedTwoPoints`. When `update_hist` raises part-way through, the histories it has already appended to keep their new entries, as in Python. Two lookups of `run` cannot fail once `update_hist` and `calc_expected` have succeeded: the book at line 100, and the limit inside `stationary_good` (every product with a history has a limit). `Trader.Run` proves both before it calls `Trader.Dispatch`, whose precondition demands them.

Where the code departs from what a best-price-first liquidity taker would be expected to do, the model follows the code:

- **Sell walk order.** Such a taker would sell into the highest bid first. The code sorts the qualifying bids ascending (line 70), so its walk starts at the lowest bid above the bound (`Scenarios.SellCheapestFirstExample`).
- **Zero-size orders.** Such a taker would skip an empty level. The code emits an order of size zero for one (lines 56-58; `Scenarios.ZeroLevelExample`).
- **Walk after capacity runs out.** Such a taker would stop at the level that uses up the capacity. The code goes on popping levels, but with the exchange's sign conventions it emits nothing more (`Taker.BuyTakesExhausted`).
- **No cap, always a residual post.** The capacity of each leg is exactly the distance from the position to the limit, and whatever the walk leaves is always posted at the bound; there is no separate capacity cap and no way to skip the post.

## Model

| member | source | states |
|---|---|---|
| Market.PositionOf | trading_algo.py:51-54 | definition: the position held, 0 for a product never traded; used by `TradingAlgo.Trader.StationaryGood` |
| TradingAlgo.Trader.constructor | trading_algo.py:10-12 | a new trader tracks exactly the four products, each with an empty history, and its store is valid (tracked products = products with a limit) |
| TradingAlgo.Trader.GetLimit | trading_algo.py:14-15 | a limit exists exactly for PEARLS, BANANAS, COCONUTS, PINA_COLADAS, and is positive; any other product raises a missing-limit error |
| TradingAlgo.Trader.UpdateHist | trading_algo.py:17-32 | the loop leaves the store and the raised error equal to `RecordAll` of the old store, and never changes which products are tracked |
| History.ExpandSide | trading_algo.py:25-30 | the expansion loop yields each level's price as often as its size (absolute for asks, only positive sizes for bids), as a multiset equal to `Expansion` |
| History.Repeat | trading_algo.py:26 | `[price] * n` has length max(n, 0) and holds only `price` |
| History.Copies | trading_algo.py:26-29 | definition: |size| copies of an ask price, size copies of a bid price (none when not positive); properties in `History.ExpansionCount` |
| History.Expansion | trading_algo.py:25-30 | definition: the multiset of one side's expanded prices; properties in `History.ExpansionCount`, `History.FromBook`, `History.ExpandSide` |
| History.FairPrice | trading_algo.py:32 | definition: the median of both expanded sides; properties in `History.FairPriceFails`, `History.FairPriceWithin`, `History.FairPriceBetweenPrices` |
| History.RecordAll | trading_algo.py:17-32 | definition: the `update_hist` loop as a recursion over the listings; properties in `History.RecordAllKeys`, `History.RecordAllSucceeds`, `History.RecordAllAppends` |
| History.RepeatHolds | trading_algo.py:26 | `[price] * n` holds `price` exactly max(n, 0) times and nothing else |
| History.ExpansionCount | trading_algo.py:25-30 | each price occurs in the expansion exactly `Copies(size)` times if it is a level of the side, else never |
| History.FairPriceFails | trading_algo.py:32 | the median raises (no data) exactly when every ask size is 0 and every bid size is ≤ 0 |
| History.FairPriceWithin | trading_algo.py:32 | the fair price lies within any bounds that contain every price of the book |
| History.FairPriceBetweenPrices | trading_algo.py:32 | returns two prices that occur in the book, and the fair price lies between them |
| History.FromBook | trading_algo.py:25-32 | every value of the expanded book is a price of one of its sides |
| History.RecordAllKeys | trading_algo.py:17-32 | recording never adds or removes a tracked product |
| History.RecordAllSucceeds | trading_algo.py:17-32 | recording succeeds if and only if every listed product has a book, a history and a non-empty expansion |
| History.RecordAllAppends | trading_algo.py:18-32 | a successful record of distinct listings appends exactly the product's fair price to each listed history and leaves every other history unchanged |
| Statistics.Median | trading_algo.py:32 | the median fails, with no data, if and only if the multiset is empty |
| Statistics.MedianWithin | trading_algo.py:32 | the median lies within any bounds of the data |
| Statistics.MedianBetweenData | trading_algo.py:32 | returns the least and greatest values of the data, both in the data and bounding all of it, and the median lies between them |
| Statistics.MedianMajority | trading_algo.py:32 | a value held by more than half of the data is the median |
| Statistics.Middle | trading_algo.py:32 | definition: the middle element of a sorted list, or the mean of the two middle ones; properties in `Statistics.MiddleIsMajority`, `Statistics.MedianWithin` |
| Statistics.MiddleIsMajority | trading_algo.py:32 | in an ascending list, a value held by more than half of the entries is its middle (both middle entries for an even count) |
| Statistics.MedianOdd | trading_algo.py:32 | for an odd count the median is one of the data values (so an integer), which the lemma returns |
| Statistics.Mean | trading_algo.py:41 | the mean fails, with no data, if and only if the sample is empty |
| Statistics.MeanWithin | trading_algo.py:41 | the mean lies within any bounds of the sample |
| Statistics.SampleVariance | trading_algo.py:42 | the sample variance of two or more points is non-negative |
| Statistics.Stdev | trading_algo.py:42 | the standard deviation fails if and only if there are fewer than two points, and is otherwise non-negative |
| Estimation.Window | trading_algo.py:39-40 | the window is the last min(n, 30) entries of the history |
| Estimation.Interval | trading_algo.py:41-43 | definition: mean ± 2 · standard deviation of the window; properties in `Estimation.IntervalMeaning`, `Estimation.IntervalCentreWithin` |
| Estimation.IntervalMeaning | trading_algo.py:41-43 | the band fails exactly below two points (empty: no data; one point: needs two points); otherwise lower ≤ upper and the band is centred on the mean |
| Estimation.IntervalCentreWithin | trading_algo.py:41-43 | the band's centre lies within any bounds of the sample |
| Estimation.Expected | trading_algo.py:39-43 | definition: the band of a tracked product's window; properties in `Estimation.ExpectedFails` |
| Estimation.ExpectedFails | trading_algo.py:39-43 | a product's estimate fails exactly when it is untracked (missing history) or has fewer than two fair prices (no data on none, needs two points on one) |
| Estimation.ExpectationsFrom | trading_algo.py:37-43 | definition: the `calc_expected` loop as a recursion from an accumulator; properties in `Estimation.ExpectationsFromMeaning` |
| Estimation.Expectations | trading_algo.py:34-44 | definition: that loop from an empty map; properties in `Estimation.ExpectationsMeaning` |
| Estimation.ExpectationsFromMeaning | trading_algo.py:37-43 | the estimation loop from any point and accumulator succeeds iff every remaining product has an estimate; then it maps exactly the accumulator's and those products to their estimates; else it raises the first failing product's error |
| Estimation.ExpectationsMeaning | trading_algo.py:34-44 | `calc_expected` succeeds iff every listed product has an estimate, then maps exactly the listed products to their estimates; otherwise it raises the error of the first listed product that has none |
| TradingAlgo.Trader.CalcExpected | trading_algo.py:34-44 | the loop returns the result of `Expectations` on the current store |
| Sorting.Sort | trading_algo.py:49 | definition: the least element, then the sorted rest; properties in `Sorting.SortSorted`, `Sorting.SortOfAscending`, `Sorting.AscendingUnique` |
| Sorting.SortSorted | trading_algo.py:49 | `sorted` returns an ascending permutation of its input |
| Sorting.SortOfAscending | trading_algo.py:49 | sorting a list that is already ascending gives it back unchanged |
| Sorting.SortSetStrict | trading_algo.py:49 | sorting a set of keys lists every key once, strictly ascending, and nothing else |
| Sorting.AscendingUnique | trading_algo.py:49 | two ascending arrangements of the same elements are equal, so `sorted` has exactly one possible result |
| Taker.AsksBelow | trading_algo.py:49 | definition: the sorted ask prices below `lb`; properties in `Taker.AsksBelowLevels` |
| Taker.BidsAbove | trading_algo.py:70 | definition: the sorted bid prices above `ub`; properties in `Taker.BidsAboveLevels` |
| Taker.AsksBelowLevels | trading_algo.py:49 | the asks walked are exactly the book's ask prices strictly below `lb`, strictly ascending |
| Taker.BidsAboveLevels | trading_algo.py:70 | the bids walked are exactly the book's bid prices strictly above `ub`, strictly ascending (lowest first) |
| Taker.Volumes | trading_algo.py:50 | the volume list has one entry per walked price (also line 71) |
| Taker.VolumesAt | trading_algo.py:50 | the i-th volume is the size resting at the i-th walked price (also line 71) |
| Taker.BuyTakes | trading_algo.py:55-65 | definition: the ask-popping loop with its running limit, as a recursion over the levels; properties in `Taker.BuyTakesPrefix`, `Taker.BuyTakesTotal`, `Taker.BuyTakesExhausted`, `Taker.BuyTakesWhole` |
| Taker.SellTakes | trading_algo.py:76-86 | definition: the bid-popping loop with its running limit; properties in `Taker.SellTakesPrefix`, `Taker.SellTakesMirrorsBuy` |
| Taker.BuyWalk | trading_algo.py:55-68 | definition: the buy taker orders, then the residual posted at `lb`; properties in `Taker.BuyWalkTotal`, `Taker.BuyWalkTakers`, `Taker.BuyWalkPost` |
| Taker.SellWalk | trading_algo.py:76-89 | definition: the sell taker orders, then the residual posted at `ub`; properties in `Taker.SellWalkTotal`, `Taker.SellWalkTakers`, `Taker.SellWalkPost` |
| Taker.BuyLeg | trading_algo.py:49-68 | definition: the buy walk over the asks below `lb`; properties in `Taker.BuyLegTotal`, `Taker.BuyLegTakers`, `Taker.BuyLegPost`, `Taker.BuyLegBuys`, `Taker.NoCapacityNoBuy` |
| Taker.SellLeg | trading_algo.py:70-89 | definition: the sell walk over the bids above `ub`; properties in `Taker.SellLegTotal`, `Taker.SellLegTakers`, `Taker.SellLegPost`, `Taker.SellLegSells`, `Taker.NoCapacityNoSell` |
| Taker.StationaryOrders | trading_algo.py:46-90 | definition: the buy leg followed by the sell leg; properties in `Taker.StationaryOrdersWithinLimit` |
| Taker.BuyTakesExhausted | trading_algo.py:55-65 | with negative ask sizes, no taker order is emitted once the capacity is ≤ 0, and there is one taker order per level when the capacity exceeds the depth |
| Taker.BuyTakesPrefix | trading_algo.py:55-65 | the taker orders are at the first levels in order, each positive and at most its level; all but the last take their whole level |
| Taker.BuyTakesTotal | trading_algo.py:55-65 | the taker orders buy min(max(capacity, 0), depth) in total |
| Taker.BuyTakesWhole | trading_algo.py:55-65 | when the capacity exceeds the depth, every level is taken whole |
| Taker.SellTakesPrefix | trading_algo.py:76-86 | the sell taker orders are at the first levels in order, each selling a positive amount of at most its level; all but the last empty their whole level |
| Taker.SellTakesMirrorsBuy | trading_algo.py:76-86 | the sell walk is the buy walk on negated sizes, with every order's quantity negated |
| Taker.BuyWalkTotal | trading_algo.py:55-68 | the walk plus residual post buys exactly max(capacity, 0) |
| Taker.BuyWalkTakers | trading_algo.py:55-65 | every buy is positive; each non-post order is at its level, for at most its size; each taker order followed by another takes its whole level at a lower price |
| Taker.BuyWalkPost | trading_algo.py:66-68 | an order at `lb` is emitted, last, iff the capacity exceeds the depth, for exactly the difference |
| Taker.SellWalkTotal | trading_algo.py:76-89 | the walk plus residual post sells exactly max(capacity, 0) |
| Taker.SellWalkTakers | trading_algo.py:76-86 | every sell is negative; each non-post order is at its level, for at most its size; each taker order followed by another empties its level at a lower price |
| Taker.SellWalkPost | trading_algo.py:87-89 | an order at `ub` is emitted, last, iff the capacity exceeds the depth, for exactly minus the difference |
| Taker.BuyLegTotal | trading_algo.py:49-68 | against negative ask sizes the buy leg buys exactly max(limit - position, 0) |
| Taker.BuyLegTakers | trading_algo.py:49-65 | the buy leg's taker orders walk the asks below `lb` cheapest first, each at most its level, whole levels until the last |
| Taker.BuyLegPost | trading_algo.py:66-68 | the buy leg has an order at `lb` iff the capacity exceeds the depth below `lb`; it is the last order and buys the difference |
| Taker.SellLegTotal | trading_algo.py:70-89 | against positive bid sizes the sell leg sells exactly max(limit + position, 0) |
| Taker.SellLegTakers | trading_algo.py:70-86 | the sell leg's taker orders walk the bids above `ub` lowest first, each at most its level, whole levels until the last |
| Taker.SellLegPost | trading_algo.py:87-89 | the sell leg has an order at `ub` iff the capacity exceeds the depth above `ub`; it is the last order and sells the difference |
| Taker.BuyLegBuys | trading_algo.py:49-68 | against negative ask sizes, every order of the buy leg buys a positive amount |
| Taker.SellLegSells | trading_algo.py:70-89 | against positive bid sizes, every order of the sell leg sells a positive amount |
| Taker.NoCapacityNoBuy | trading_algo.py:55-68 | against negative ask sizes, a buy capacity of at most zero yields no buy order at all, neither taker nor post |
| Taker.NoCapacityNoSell | trading_algo.py:76-89 | against positive bid sizes, a sell capacity of at most zero yields no sell order at all |
| Taker.WalksWithinLimit | trading_algo.py:55-89 | for any levels with the sign conventions, strictly ascending beyond their bounds, the buy walk at limit − position followed by the sell walk at limit + position keeps the position within the limit |
| Taker.StationaryOrdersWithinLimit | trading_algo.py:46-90 | all buys precede all sells; filled, the buys take the position exactly to the limit (or leave a position already beyond it), and the sells exactly to minus the limit |
| Taker.BuysThenSells | trading_algo.py:90 | buys totalling max(limit − position, 0) followed by sells totalling −max(limit + position, 0) keep the position within the limit |
| TradingAlgo.TakeAsks | trading_algo.py:55-68 | the popping loop with its running limit returns exactly the buy walk `BuyWalk` |
| TradingAlgo.TakeBids | trading_algo.py:76-89 | the popping loop with its running limit returns exactly the sell walk `SellWalk` |
| TradingAlgo.BuyPass | trading_algo.py:49-68 | sorting, volume lookup and walk together return the buy leg `BuyLeg` |
| TradingAlgo.SellPass | trading_algo.py:70-89 | sorting, volume lookup and walk together return the sell leg `SellLeg` |
| TradingAlgo.TradeBand | trading_algo.py:49-89 | the buy pass at capacity limit − position followed by the sell pass at limit + position returns exactly `StationaryOrders` |
| TradingAlgo.Trader.StationaryGood | trading_algo.py:46-90 | raises a missing-limit error for a product without a limit; otherwise returns the buy leg at capacity limit − position followed by the sell leg at limit + position, position 0 when absent |
| TradingAlgo.DispatchFrom | trading_algo.py:99-107 | definition: the dispatch loop of `run` as a recursion over the listings; properties in `TradingAlgo.DispatchFromMeaning` |
| TradingAlgo.DispatchFromMeaning | trading_algo.py:99-107 | dispatch fails, with a missing limit, iff a listed product has no limit; otherwise it maps each listed product to its `stationary_good` batch and keeps the other entries |
| TradingAlgo.Trader.Dispatch | trading_algo.py:99-107 | for listings that all have a book, an estimate and a limit, the loop returns the map that `DispatchFrom` builds from an empty one |
| TradingAlgo.Trader.Run | trading_algo.py:93-108 | a valid trader stays valid, and the new store and the result are those of `Tick` on the old store |
| TradingAlgo.Tick | trading_algo.py:93-108 | definition: record, estimate, then dispatch, raising the first error; properties in `TradingAlgo.RunSucceeds`, `TradingAlgo.RunOrders`, `TradingAlgo.RunWithinLimits`, `TradingAlgo.FirstTickFails` |
| TradingAlgo.RunSucceeds | trading_algo.py:93-108 | a tick of distinct listings succeeds iff every listed product has a book, a history with at least one earlier entry, a non-empty book expansion and a limit |
| TradingAlgo.RunOrders | trading_algo.py:93-108 | a successful tick appends one fair price per listed product, leaves the rest unchanged, and answers exactly the listed products, each with its batch at the band estimated from the new history |
| TradingAlgo.RunWithinLimits | trading_algo.py:93-108 | on sign-conventional books, every batch of a successful tick keeps its product within its limit |
| TradingAlgo.FirstTickFails | trading_algo.py:11 | a fresh trader's first tick on a non-empty listing raises: the record's error if recording fails, and otherwise needs-two-points, because one fair price per product is too few for a standard deviation (line 42) |
| Scenarios.AsksExample | trading_algo.py:49 | asks 10, 11, 13 below 12 are walked as [10, 11] |
| Scenarios.BuyExample | trading_algo.py:49-68 | capacity 5 against 2 at 10 and 4 at 11 buys 2 at 10 and 3 at 11, and posts nothing |
| Scenarios.BuyPostExample | trading_algo.py:49-68 | capacity 5 against 1 at 10 buys 1 at 10 and posts 4 at the bound |
| Scenarios.ZeroLevelExample | trading_algo.py:56-58 | a zero-size level below the bound yields an order of size zero |
| Scenarios.BidsExample | trading_algo.py:70 | bids 12 and 13 above 11 are walked as [12, 13] |
| Scenarios.SellCheapestFirstExample | trading_algo.py:70-86 | capacity 5 against 5 at 12 and 5 at 13 sells all 5 at 12 |
| Scenarios.FairPriceExample | trading_algo.py:21-32 | 3 offered at 10 and 2 bid at 8 give a fair price of 10 |

## Left out

- The `print` logging (lines 57, 61, 67, 78, 82, 88, 97, 103) has no effect on the result and is not modelled.
- Floating point: prices, histories, means and bands are exact reals. Statistics.Stdev: the square root is an abstract non-negative function, so nothing is stated about the band's width beyond lower ≤ upper.
- The `datamodel` module (`OrderDepth`, `TradingState`, `Order`) is not part of this model. Its types are modelled as plain records: a price-to-size map per book side, a position map, and the listings as a sequence of product names.
- Dictionary iteration order of a book's levels: `ExpandSide` accepts any order. Only the multiset it yields is specified, and that is all the median depends on.
- Sign conventions: the methods accept any book. The lemmas about totals, takers and limits assume negative ask sizes and positive bid sizes. On other books the code may emit zero-size or wrong-sign orders; `Scenarios.ZeroLevelExample` shows one such case.
- TradingAlgo.RunSucceeds, TradingAlgo.RunOrders, TradingAlgo.RunWithinLimits and History.RecordAllAppends require distinct listings. The listings are the keys of a dictionary in the host, so they always are.
- TradingAlgo.Trader.Dispatch: requires every listed product to have a limit, which `Trader.Run` establishes. The missing-limit exception at this point of `run` therefore cannot occur there; it is modelled by `DispatchFrom` and `Trader.StationaryGood`.
