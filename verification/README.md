# Verified models of the gateways and of the fixed-point arithmetic

The Rust gateways keep local copies of remote state (order books, candles, market rows) and push them to
subscribers; the Rust SDK beside them computes with 18-decimal fixed-point integers and talks to the
exchange over a request/response websocket. This project models those parts and proves what they are for.

| files | what they model |
|---|---|
| `OrderBook`, `BookSession` | the order book replica, one upstream session, and whole runs of sessions against an upstream book that is a function of time |
| `FanOut`, `MarketHandle`, `DepthStream` | one worker and any number of subscribers, interleaved; the object whose methods perform those steps; and both layers together, from the upstream book to the messages a subscriber holds |
| `Candles`, `CandleStore` | the bounded candle cache, the table with "newest submission wins", and the life of one series |
| `Supervisor` | handing out one shared handle per key, with and without a bootstrap that can fail |
| `Markets`, `MarketsStream` | merging three sources into market rows, diff and patch, the publishing service, and a client that subscribes, lags and takes new snapshots |
| `X18`, `X18Sqrt`, `X18Exp`, `IntExp` | multiplication, division, square root and powers, with every machine-integer step that can abort or wrap, in a build with overflow checks |
| `Wrapping` | multiplication, division and the integer power in a build without overflow checks, and how the two builds compare |
| `Decimal` | the decimal printer and parser |
| `OrderPrice`, `Appendix` | the effective price of an order; the packed bits it depends on, as the order builder writes them and as they are read |
| `Rpc`, `RpcClient` | the connection worker with its table of pending requests; the callers and the command channel around it |
| `Base`, `Ordered` | options, small integer functions, sorted listings of finite sets |

Code that changes things in place is modelled by classes and methods (`OrderBookState`, `MarketHandle`,
`SeriesState`, `CandleStore`, `SeriesHandle`, `MarketsService`, `SeriesSupervisor`), each method tied to a
function of the old state; interleavings are state machines whose steps are the critical sections and atomic
operations of the source. A Rust operation that panics or returns an error is a `None`; `as` casts wrap, and so
does a left shift. Whether an integer overflow panics or wraps depends on the build: the gateway images are built
with `--release` (gateway/chart/Dockerfile:8, for one) and no manifest turns the checks on, so there it wraps; a
debug build panics. All modules but `Wrapping` describe the checked build.

## What came out

Properties that hold only under a condition, each with its exact condition or a counterexample proved beside it:

- With overflow checks, `mul_x18` and `div_x18` are exact truncated results if and only if neither input is
  `i128::MIN` and the magnitude of the result is below 2^127. For magnitudes from 2^127 up to 2^128 - 1 they return
  a value of the wrong sign or size where `try_mul_x18` and `try_div_x18` fail (`X18.MulX18CanWrap`). Without
  checks they keep the low 128 bits of the truncated result, so they are exact if and only if it fits, and
  wherever the checked build returns, both builds return the same.
- `fexp_x18` and `fexp` leave their loop if and only if the exponent is below 2^126, in either build.
- `fexp` squares its base once more than it needs. With checks it aborts if and only if that last square does not
  fit, even where the power itself does (`IntExp.FexpAbortsOnRepresentablePower`); without checks it is the power
  modulo 2^128, exact if and only if the power fits (`Wrapping.FexpWrappingExact`).
- `try_sqrt_x18(s)` succeeds if and only if `s * 10^18 <= 2^186`.
- `str_to_x18` applies the sign to the whole part only, so printing and parsing a negative value with a
  fraction does not give it back.
- An order whose amount is not positive and whose slippage exceeds 100% gets a price that falls as the oracle
  price rises.
- The order builder packs its fields without checking their widths: reading undoes packing if and only if the
  margin, the builder id and the builder fee fit theirs, and a builder id of 17 bits changes the slippage
  (`Appendix.OversizedBuilderIdChangesSlippage`).
- The handle a caller got for a candle series is the mapped one, started or about to be, if and only if the caller
  that created it did not remove it after a failed bootstrap (`Supervisor.ReturnedIsLiveIff`); a second caller who
  asks during a bootstrap that fails is left with one that is never started
  (`Supervisor.FailedBootstrapOrphansHandle`).
- A load that fails after the archive rows were written leaves the candle cache equal to its part of the table if
  and only if no fetched row replaced a stored one by another in a bucket the cache reaches
  (`CandleStores.LoadFailureKeepsTailIff`, with `CandleStores.LoadFailureLeavesOldRow` as an instance).
- Market deltas are sent after the lock is released, so they can overtake one another. A client then holds the map
  of a number if and only if for every key the last message it received about that key says what that map says
  (`MarketsStream.ClientHoldsIff`). `MarketsStream.OutOfOrderFoldsGoWrong` is a run in which a client that has
  read everything keeps an older row; sending in the order of the numbers rules that out.
- A request that reuses the id of a pending one takes its place, and the older caller is never answered; nothing
  else destroys a sender unused (`Rpc.NextDropsIff`, with `Rpc.ReusedIdDropsTheOlder` as an instance). The client's own
  counter rules it out (`RpcClient.RunKeepsInv`).

Hypotheses that the theorems carry: the upstream book has positive sizes, an upstream delta gives the size at
its newest timestamp of every price changed since its oldest, and a snapshot is the best `depth` levels; a product
is known to the candle table by one symbol; only a series itself writes its own rows; for `ClientFollowsServer`,
market deltas are sent in the order of their numbers; row keys are injective over products within one source of
market rows.

## Model

| member | source | states |
|---|---|---|
| OrderBook.OrderBookState.ResetFromSnapshot | gateway/orderbook/src/orderbook_state.rs:40-46 | the book becomes exactly the snapshot's positive levels at the snapshot's timestamp |
| OrderBook.OrderBookState.ApplyDelta | gateway/orderbook/src/orderbook_state.rs:48-64 | stale, gap or applied by the two timestamp comparisons; the book changes only when applied |
| OrderBook.OrderBookState.DepthView | gateway/orderbook/src/orderbook_state.rs:66-82 | the view is the best `depth` levels of both sides, bids from the top and asks from the bottom |
| OrderBook.LoadSideMeaning | gateway/orderbook/src/orderbook_state.rs:92-98 | for every list of levels, the last positive size given for a price wins, and other sizes and prices leave it alone |
| OrderBook.ApplySideMeaning | gateway/orderbook/src/orderbook_state.rs:100-108 | the last size given for a price wins, zero removes it, negative sizes and other prices leave it alone |
| OrderBook.ApplySidePositive | gateway/orderbook/src/orderbook_state.rs:100-108 | stored sizes stay positive under any delta |
| OrderBook.LoadSidePositive | gateway/orderbook/src/orderbook_state.rs:92-98 | stored sizes are positive after any snapshot |
| OrderBook.SideViewMeaning | gateway/orderbook/src/orderbook_state.rs:66-82 | a list is the side's view if and only if it has min(depth, levels) best levels, strictly best first, with prefix sums as totals |
| OrderBook.DepthMeaning | gateway/orderbook/src/orderbook_state.rs:66-82 | the same for both sides of a depth view |
| OrderBook.TotalsAreSums | gateway/orderbook/src/orderbook_state.rs:66-82 | the running total of a level is the sum of the sizes up to and including it |
| OrderBook.TotalsRise | gateway/orderbook/src/orderbook_state.rs:66-82 | with positive sizes the running totals are positive and strictly rise |
| BookSession.HandleMessage | gateway/orderbook/src/market.rs:440-475 | one parsed message: applied, ignored when stale, or the session's error |
| BookSession.MessageMeaning | gateway/orderbook/src/market.rs:440-492 | what each kind of message does to a session that goes on: nothing, both sides updated, or the end with its reason |
| BookSession.IgnoredDoNotMatter | gateway/orderbook/src/market.rs:442-492 | texts that are no deltas change neither the book nor the end, wherever they come |
| BookSession.RunUpstreamSession | gateway/orderbook/src/market.rs:387-431 | a session resets from the snapshot and replays messages up to the first error |
| BookSession.ExhaustedIffClean | gateway/orderbook/src/market.rs:406-431 | a session goes on if and only if no failure came in and every new delta started no later than the replica stood; the replica then stands at the newest timestamp |
| BookSession.FirstBreakEnds | gateway/orderbook/src/market.rs:406-431 | the first message that breaks a session ends it, with its own reason and the book of the messages before it; later ones do not matter |
| BookSession.SessionMeaning | gateway/orderbook/src/market.rs:387-431 | the same of a whole session; without a snapshot it fails and keeps the book |
| BookSession.SnapshotSideAgrees | gateway/orderbook/src/market.rs:387-400 | a top-of-book snapshot agrees with upstream at every price at or better than its worst level |
| BookSession.DeltaAgrees | gateway/orderbook/src/orderbook_state.rs:48-64 | applying an honest delta keeps the agreement, even when the delta overlaps the snapshot |
| BookSession.ReplicaAgrees | gateway/orderbook/src/market.rs:387-475 | over every run of sessions the replica equals upstream at its own timestamp wherever the last snapshot reached, and is a submap of it elsewhere |
| BookSession.ReplicaExact | gateway/orderbook/src/market.rs:387-475 | at every price at or better than a level of the last snapshot, the replica has exactly upstream's size, present or absent |
| BookSession.ViewMatchesUpstream | gateway/orderbook/src/orderbook_state.rs:66-82 | where all listed levels are covered, the depth view is the upstream one |
| BookSession.GapIffMissing | gateway/orderbook/src/orderbook_state.rs:48-64 | with chained events, a gap is reported if and only if an event past the snapshot is missing; otherwise the replica ends at the last event |
| BookSession.BridgingComplete | gateway/orderbook/src/market.rs:289-431 | queued events that start no later than the snapshot bridge without a gap |
| BookSession.GapLeavesBookUnchanged | gateway/orderbook/src/orderbook_state.rs:48-64 | a gap is found at one delta, and the book stays as the deltas before it left it |
| FanOut.RunKeepsInv | gateway/orderbook/src/market.rs:193-528 | the invariant behind the two guarantees below, over every interleaving |
| FanOut.EmitServesOpenChannels | gateway/orderbook/src/market.rs:511-524 | sending keeps exactly the open channels, and each gets the message once, behind its queue |
| FanOut.SubscribersKeptAndServed | gateway/orderbook/src/market.rs:193-209 | over every run a subscriber that neither hung up nor was removed stays registered, and its queue grows by exactly the messages sent since, in order |
| FanOut.EveryChangeIsSent | gateway/orderbook/src/market.rs:454-528 | over every run the k-th depth message sent shows the book after the k-th change, and between changes one has been sent for each |
| FanOut.DeltaIsSent | gateway/orderbook/src/market.rs:454-490 | a delta that joins on is applied, numbered and sent with its own timestamps and the new view |
| FanOut.FirstReadMeaning | gateway/orderbook/src/market.rs:211-225 | the first read of a subscriber is the current view under a fresh number, and nothing while the book is empty |
| FanOut.SubscriberSteps | gateway/orderbook/src/market.rs:193-209 | joining, hanging up and leaving change that subscriber only |
| FanOut.SequenceNumbersFollowChanges | gateway/orderbook/src/market.rs:193-528 | depth messages in the order of their numbers show a non-decreasing number of book changes, each exactly the book after that many |
| FanOut.NoUpdateLost | gateway/orderbook/src/market.rs:193-225 | when the worker is between changes, the last depth in every stream is the current depth view: no update is lost in the registration race |
| MarketHandles.MarketHandle.Emit | gateway/orderbook/src/market.rs:511-524 | every open subscriber gets the message once, behind its queue, and closed ones are removed |
| MarketHandles.MarketHandle.ReadSnapshotMessage | gateway/orderbook/src/market.rs:211-225 | an empty book gives no message and takes no number; otherwise the view and a fresh number |
| MarketHandles.MarketHandle.Subscribe | gateway/orderbook/src/market.rs:193-205 | registering comes first, then the snapshot: two steps of the state machine |
| MarketHandles.MarketHandle.LoadAndEmit | gateway/orderbook/src/market.rs:401-405 | reset, number and emit a snapshot: three steps of the worker, and every open subscriber gets the new book's view |
| MarketHandles.MarketHandle.HandleDelta | gateway/orderbook/src/market.rs:454-490 | apply, number and emit the new view with the delta's own timestamps, or nothing at all when stale or a gap |
| DepthStream.HistoryStaysHonest | gateway/orderbook/src/market.rs:387-475 | every book of the history agrees with upstream, under any interleaving with subscribers |
| DepthStream.WorkerBookExact | gateway/orderbook/src/market.rs:387-475 | whatever subscribers do in between, until the next snapshot the worker's book is exact at every price within the last one |
| DepthStream.MessagesShowUpstream | gateway/orderbook/src/market.rs:193-528 | every depth message any subscriber holds is the view of a book that agrees with upstream at the message's source timestamp |
| DepthStream.CoveredMessagesAreUpstreamViews | gateway/orderbook/src/market.rs:193-528 | where its levels are covered by the last snapshot, a depth message any subscriber holds is exactly the upstream depth view at its source timestamp |
| Supervisor.SpawnedAtMostOnce | gateway/orderbook/src/market.rs:108-137 | no key is spawned twice, whatever the interleaving of callers |
| Supervisor.SpawnedStays | gateway/orderbook/src/market.rs:108-137 | a spawned handle is the one in the map in every later state |
| Supervisor.HandlesAreKnown | gateway/chart/src/market.rs:129-149 | a key with a handle is a known key, so the order of the two lookups, which differs between the gateways, does not matter |
| Supervisor.LoneCall | gateway/chart/src/market.rs:129-181 | a call by itself returns the mapped handle, refuses an unknown key, or creates a handle that it maps and spawns, or takes back when its bootstrap fails |
| Supervisor.OvertakenGetsMapped | gateway/orderbook/src/market.rs:126-131 | a caller overtaken between its sections gets the handle that is there now |
| Supervisor.RemoveOnlyOwn | gateway/chart/src/market.rs:129-181 | a failed bootstrap removes the handle its own caller inserted and no other |
| Supervisor.ReturnedIsLiveIff | gateway/chart/src/market.rs:129-181 | over every run, a returned handle is the mapped one if and only if its creator did not remove it after a failed bootstrap; and then it is spawned or about to be |
| Supervisor.CallersShareLiveHandle | gateway/orderbook/src/market.rs:108-137 | callers of one key whose handles were not abandoned share one handle, spawned or about to be |
| Supervisor.NoFailureAbandonsNothing | gateway/orderbook/src/market.rs:108-137 | where no bootstrap fails, as in the order book gateway, no handle is ever abandoned |
| Supervisor.FailedBootstrapOrphansHandle | gateway/chart/src/market.rs:129-181 | a race in which the condition fails: a second caller holds a handle that is removed and never spawned |
| Supervisor.SeriesSupervisor.EnsureSeries | gateway/chart/src/market.rs:129-181 | one call among others, with any steps of theirs at each of its awaits, performs the steps of its schedule in order and returns what they brought it |
| Candles.SeriesState.ReplaceAll | gateway/chart/src/market.rs:194-202 | the cache becomes the newest rows within its capacity |
| Candles.SeriesState.ApplyRow | gateway/chart/src/market.rs:204-260 | insert or replace by newest submission, drop the oldest beyond capacity, ignore rows older than the front; true if and only if the row is in the cache afterwards |
| Candles.AfterRowMeaning | gateway/chart/src/market.rs:204-260 | buckets stay strictly rising and within capacity, no kept row gets older, nothing is made up, at most the oldest row of a full cache goes |
| Candles.RowCachedIff | gateway/chart/src/market.rs:204-260 | the row is cached afterwards if and only if it is not older than the front and not older than the cached row of its bucket; otherwise nothing changes |
| Candles.OtherRowsStay | gateway/chart/src/market.rs:204-260 | every other row stays, but for the oldest one of a full cache |
| Candles.SeriesState.SnapshotViews | gateway/chart/src/market.rs:262-272 | the newest rows up to the limit, oldest first |
| Candles.ListsIsRowsOf | gateway/chart/src/store.rs:157-212 | a map has one sorted listing |
| CandleStores.CandleStore.UpsertMany | gateway/chart/src/store.rs:90-155 | rows are written in order under the conflict rule |
| CandleStores.CandleStore.LoadRecentRows | gateway/chart/src/store.rs:157-212 | the newest rows of the series up to the limit, oldest first |
| CandleStores.SelectedMeaning | gateway/chart/src/store.rs:157-212 | loading sees exactly the stored rows of that product, granularity and symbol |
| CandleStores.NewestWins | gateway/chart/src/store.rs:124-135 | after any writes each bucket holds the row of the greatest submission, the latest among equals |
| CandleStores.UpsertAllAt | gateway/chart/src/store.rs:124-135 | a batch leaves under a key its winning row, unless the stored one has a newer submission |
| CandleStores.SeriesHandle.Bootstrap | gateway/chart/src/market.rs:333-363 | load, fetch the archive only if too little is there, load again |
| CandleStores.BootstrapMeaning | gateway/chart/src/market.rs:333-363 | the cache holds the newest rows up to the history limit, and the archive is written exactly when the table alone had too few |
| CandleStores.BackfillMeaning | gateway/chart/src/market.rs:672-692 | so does a completed backfill, whatever the cache held before |
| CandleStores.FailedBackfillMeaning | gateway/chart/src/market.rs:672-692 | a backfill that fetches nothing or fails to store changes nothing; one that fails to load has stored and leaves the cache |
| CandleStores.UpsertAllStores | gateway/chart/src/store.rs:124-135 | every row written is stored unless a newer one of its bucket is, nothing stored gets older, and nothing else appears |
| CandleStores.SeriesHandle.BackfillFromArchive | gateway/chart/src/market.rs:672-692 | write the archive rows and replace the cache, or stop at the step that fails |
| CandleStores.SeriesHandle.UpsertThenApply | gateway/chart/src/market.rs:621-626 | store first, then cache: the table holds the row unless a newer one was there, the cache holds it exactly if admitted, other keys and rows stay |
| CandleStores.UpdateMeaning | gateway/chart/src/market.rs:621-626 | one live candle: stored unless a newer one was, cached exactly if admitted, nothing else touched; nothing at all if storing fails |
| CandleStores.TailAfterRow | gateway/chart/src/market.rs:204-260 | a cache that is a tail of the table stays one when both take a row |
| CandleStores.CacheFollowsTable | gateway/chart/src/market.rs:193-363 | over whole lives no cached row is newer than the table's, and unless a load failed after a harmful upsert since the last completed backfill the cache is exactly the table's rows from its front bucket upwards |
| CandleStores.SyncEndsIff | gateway/chart/src/market.rs:672-692 | from a life in sync, the next event ends that equality if and only if it is a load that failed after a harmful upsert |
| CandleStores.LoadFailureKeepsTailIff | gateway/chart/src/market.rs:672-692 | for every cache that is a tail: a load that fails after its upsert leaves it one if and only if in no bucket it reaches the newest fetched row replaced the stored one by another |
| CandleStores.LoadFailureLeavesOldRow | gateway/chart/src/market.rs:672-692 | an instance in which it does not |
| CandleStores.SnapshotServesTable | gateway/chart/src/market.rs:262-272 | what the cache serves is what loading from the table would give, as far as it reaches |
| Markets.BuildMarketRows | gateway/markets/src/service.rs:382-518 | with injective keys the map is a function of the sources alone, so every iteration order of the three tables gives the same one |
| Markets.RowExists | gateway/markets/src/service.rs:382-518 | a row exists if and only if some source mentions its key |
| Markets.RowMeaning | gateway/markets/src/service.rs:382-518 | key equals symbol, `updated_at` is the newest contributing time, staleness follows it, price and funding come from their sources |
| Markets.RowPrecedence | gateway/markets/src/service.rs:410-515 | each key has at most one product per source, and these decide every field that is not settled by the previous row, in every combination of sources |
| Markets.OnlyFiniteFigures | gateway/markets/src/service.rs:596-608 | no figure taken from a source is ever kept unless it is finite |
| Markets.EverySourceShows | gateway/markets/src/service.rs:382-507 | every symbol, ticker and contract shows in the row of its market, with its figures |
| MarketsStream.DiffMarketRows | gateway/markets/src/service.rs:520-540 | exactly the changed rows and exactly the keys that are gone |
| MarketsStream.DiffIsMinimal | gateway/markets/src/service.rs:520-540 | nothing is announced that did not change |
| MarketsStream.PatchUndoesDiff | gateway/markets/src/service.rs:520-540 | patching the old map with the difference gives the new map |
| MarketsStream.MarketsService.RebuildAndPublish | gateway/markets/src/service.rs:325-370 | nothing happens on an empty difference; otherwise the number advances by one and the message leads from the old map to the new |
| MarketsStream.FoldIsMapIff | gateway/markets/src/service.rs:325-370 | messages folded in any order, with omissions and repetitions, end at the map of n if and only if for every key the last one about it, or the start, says what that map says |
| MarketsStream.OverlappingReplay | gateway/markets/src/main.rs:136-180 | a snapshot at s and the messages k..n with k <= s+1 and n >= s end at the map of n, although earlier deltas run over newer rows |
| MarketsStream.ClientSteps | gateway/markets/src/main.rs:136-180 | a client joins at the end of what was sent, reads the current map, receives in order, or loses some |
| MarketsStream.ClientHoldsIff | gateway/markets/src/main.rs:136-180 | the same of a client in every interleaving of publishing, sending in any order, lagging by any amount and new snapshots |
| MarketsStream.ClientFollowsServer | gateway/markets/src/main.rs:136-180 | with sends in the order of numbers, in every such interleaving a client that has caught up with its snapshot holds the server's map at its position |
| MarketsStream.OutOfOrderFoldsGoWrong | gateway/markets/src/service.rs:326-369 | a run with two sends out of order after which a client that has read everything holds an older row |
| X18.MulX18Exact | nado-rust-sdk/src/nado_utils/math.rs:22-38 | exact truncated product if and only if no input is the least value and the result is below 2^127 in magnitude |
| X18.TruncDivMeaning | nado-rust-sdk/src/nado_utils/math.rs:22-58 | the division the other rows speak of is the one quotient truncated toward zero |
| X18.MulX18AgreesWithWide | nado-rust-sdk/src/nado_utils/math.rs:233-235 | agreement with the 256-bit variant exactly outside the wrapping band; where a factor is the least value, exactly when the other is above one or at most minus one |
| X18.MulX18CanWrap | nado-rust-sdk/src/nado_utils/math.rs:22-38 | two positive factors with a negative product |
| X18.MulMagnitudesExact | nado-rust-sdk/src/nado_utils/math.rs:22-38 | the three magnitude cases compute the same floor quotient, and abort exactly when it needs more than 128 bits |
| X18.DivX18 | nado-rust-sdk/src/nado_utils/math.rs:45-58 | quotient and remainder stages compute the signed floor quotient; the cut to 128 bits loses nothing |
| X18.DivX18Exact | nado-rust-sdk/src/nado_utils/math.rs:45-58 | exact truncated quotient if and only if no input is the least value and the result is below 2^127 in magnitude |
| X18.DivX18AgreesWithWide | nado-rust-sdk/src/nado_utils/math.rs:237-239 | agreement with the 256-bit variant exactly outside the wrapping band; always for a zero divisor, never for the least divisor, and for the least dividend exactly when the divisor is at least minus one and below one |
| X18Sqrt.TrySqrtX18 | nado-rust-sdk/src/nado_utils/math.rs:241-256 | succeeds if and only if s * 10^18 is at most 2^186, with the least non-negative root |
| X18Exp.FexpX18 | nado-rust-sdk/src/nado_utils/math.rs:154-166 | the loop over the exponent's bits computes the recursive specification |
| X18Exp.BitAndReadsBit | nado-rust-sdk/src/nado_utils/math.rs:154-166 | the loop's test of its counter, a power of two, against the exponent reads one bit of the exponent |
| X18Exp.LoopLeftIffBelowTwo126 | nado-rust-sdk/src/nado_utils/math.rs:154-166 | the loop's guard ever fails if and only if the exponent is below 2^126 |
| X18Exp.FexpX18Error | nado-rust-sdk/src/nado_utils/math.rs:154-166 | for bases in [0, 1]: no abort, never above the exact power, at most y units below it |
| X18Exp.FexpX18NegativeBase | nado-rust-sdk/src/nado_utils/math.rs:154-166 | for bases in [-1, 0]: the power of the magnitude, negated for odd exponents |
| IntExp.FexpX18Whole | nado-rust-sdk/src/nado_utils/math.rs:154-166 | on whole bases fexp_x18 gives the exact power as long as its last square fits |
| IntExp.Fexp | nado-rust-sdk/src/nado_utils/math.rs:168-180 | the loop over the exponent's bits computes the recursive specification |
| IntExp.FexpExact | nado-rust-sdk/src/nado_utils/math.rs:168-180 | the exact power if and only if the last square fits 128 bits, an abort otherwise |
| IntExp.FexpAbortsOnRepresentablePower | nado-rust-sdk/src/nado_utils/math.rs:168-180 | 10^20 to the power 1 aborts |
| Wrapping.MulX18WrappingExact | nado-rust-sdk/src/nado_utils/math.rs:10-38 | without overflow checks the result is the truncated quotient modulo 2^128, exact if and only if that fits |
| Wrapping.MulX18BuildsAgree | nado-rust-sdk/src/nado_utils/math.rs:10-38 | wherever the checked build returns, both builds return the same |
| Wrapping.DivX18Wrapping | nado-rust-sdk/src/nado_utils/math.rs:45-58 | the two stages without checks keep the low bits of the floor quotient; only a zero divisor aborts |
| Wrapping.DivX18WrappingExact | nado-rust-sdk/src/nado_utils/math.rs:45-58 | so the result is the truncated quotient modulo 2^128, exact if and only if that fits, and agrees with the checked build where that returns |
| Wrapping.FexpWrapping | nado-rust-sdk/src/nado_utils/math.rs:168-180 | without checks the loop computes the power modulo 2^128 |
| Wrapping.FexpWrappingExact | nado-rust-sdk/src/nado_utils/math.rs:168-180 | exact if and only if the power fits, and in agreement with the checked build where that returns |
| Wrapping.ChecksMatter | nado-rust-sdk/src/nado_utils/math.rs:22-38 | inputs on which the checked build aborts and the other returns the exact result |
| Decimal.X18ToDecimalString | gateway/portfolio/src/main.rs:1606-1622 | sign, whole part, and the 18-digit fraction without its trailing zeros |
| Decimal.PrintedForm | gateway/portfolio/src/main.rs:1606-1622 | the printed form is the shortest: no point for a whole value, no trailing zero behind one, no leading zero |
| Decimal.ReadBack | nado-rust-sdk/src/nado_utils/math.rs:129-144 | what parsing makes of a printed value, for every value |
| Decimal.RoundTrip | nado-rust-sdk/src/nado_utils/math.rs:129-144 | parsing undoes printing if and only if the value is non-negative or whole |
| Decimal.PrintInjective | gateway/portfolio/src/main.rs:1606-1622 | no two values print alike |
| Decimal.ParseI128Iff | nado-rust-sdk/src/nado_utils/math.rs:129-144 | exactly an optional sign and at least one digit read as a number, if it fits |
| Decimal.SecondPointEnds | nado-rust-sdk/src/nado_utils/math.rs:129-144 | what follows a second point is not looked at |
| Decimal.ParseTruncatesFraction | nado-rust-sdk/src/nado_utils/math.rs:129-144 | digits beyond the 18th are truncated, a whole part that does not fit is read as zero, an overflow aborts |
| OrderPrice.OrderPriceMeaning | nado-rust-sdk/src/nado_utils/eip712_structs.rs:184-226 | in range, a TWAP order trades at the scaled oracle price clamped by its limit |
| OrderPrice.OrderPriceClamped | nado-rust-sdk/src/nado_utils/eip712_structs.rs:208-226 | never above a buy's limit, never below the limit of an order with a non-positive amount |
| OrderPrice.OrderPriceRisesWithOracle | nado-rust-sdk/src/nado_utils/eip712_structs.rs:208-226 | monotone in the oracle price for slippage up to 100% |
| OrderPrice.FollowsOracleIffSlippageAtMostFull | nado-rust-sdk/src/nado_utils/eip712_structs.rs:208-226 | and, over all limits, only then |
| OrderPrice.OrderPriceFallsBeyondFullSlippage | nado-rust-sdk/src/nado_utils/eip712_structs.rs:208-226 | antitone beyond it |
| Appendix.PackReadsBack | nado-rust-sdk/src/builders/execute/place_order.rs:142-174 | all readers return what the builder was given if and only if its fields fit their widths |
| Appendix.OversizedBuilderIdChangesSlippage | nado-rust-sdk/src/builders/execute/place_order.rs:171-174 | a builder id of 17 bits spills into the slippage |
| OrderPrice.BuiltSlippageApplies | nado-rust-sdk/src/nado_utils/eip712_structs.rs:200-226 | an order built with a time trigger trades at the slippage it was built with |
| Rpc.ResponseResolvesOnce | nado-rust-sdk/src/subscriptions.rs:499-515 | a response resolves the pending request of its own id with itself, touches no other, and a second one with that id changes nothing; the accounting holds |
| Rpc.DrainPending | nado-rust-sdk/src/subscriptions.rs:460-470 | leaving the loop gives every pending request the error, in any order |
| Rpc.ConnectionWorker | nado-rust-sdk/src/subscriptions.rs:409-471 | the select loop is the run of the state machine over its inputs, and runs until the first that ends the connection |
| Rpc.RunningIff | nado-rust-sdk/src/subscriptions.rs:409-497 | the worker runs if and only if no input of an explicit list has ended the connection |
| Rpc.StepMeaning | nado-rust-sdk/src/subscriptions.rs:424-451 | while the connection lasts a request becomes pending, a response resolves its own request, and nothing else changes anything |
| Rpc.EndMeaning | nado-rust-sdk/src/subscriptions.rs:424-471 | what ends the connection gives its text to every pending request, and to one that could not be written; nothing else changes |
| Rpc.FirstEndTellsEveryone | nado-rust-sdk/src/subscriptions.rs:409-471 | over every run the first such input tells all requests then pending, and later inputs are not looked at |
| Rpc.RunAccounted | nado-rust-sdk/src/subscriptions.rs:409-515 | over every run: each sender used once, requests received = pending + resolved, answers matched by id, nobody pending after the exit, and no sender dropped when ids are fresh |
| Rpc.OutcomeIsFinal | nado-rust-sdk/src/subscriptions.rs:409-515 | what was sent to a request is never replaced |
| Rpc.NextDropsIff | nado-rust-sdk/src/subscriptions.rs:424-433 | a step destroys a sender unused if and only if it is a written request with the id of a pending one |
| Rpc.ReusedIdDropsTheOlder | nado-rust-sdk/src/subscriptions.rs:424-433 | a reused id destroys the older sender |
| RpcClient.RunKeepsInv | nado-rust-sdk/src/subscriptions.rs:336-515 | with callers, channel and worker interleaved, ids stay unique and every call is in exactly one of: channel, worker, refused, lost |
| RpcClient.CallerSteps | nado-rust-sdk/src/subscriptions.rs:336-356 | what taking an id, sending, closing and giving up do |
| RpcClient.WorkerSteps | nado-rust-sdk/src/subscriptions.rs:419-471 | commands are taken from the front one at a time, and those left are lost with the channel |
| RpcClient.CallIsAnswered | nado-rust-sdk/src/subscriptions.rs:336-352 | from any reachable state with an idle channel, a call that is sent, written and answered under its id gets exactly that answer |
| RpcClient.LostConnectionFreesEveryone | nado-rust-sdk/src/subscriptions.rs:336-471 | after a lost connection and the worker's exit no call waits: written ones fail with the reason, queued ones lose their channel |
| RpcClient.AnswersAreOwn | nado-rust-sdk/src/subscriptions.rs:336-352 | every answer a caller gets carries the id of its own request |
| RpcClient.AnswersAreDistinct | nado-rust-sdk/src/subscriptions.rs:336-356 | no two calls are answered under one id |
| RpcClient.WaitingIsSomewhere | nado-rust-sdk/src/subscriptions.rs:336-471 | a waiting call is in the channel or pending under its own id, and not both |
| RpcClient.NobodyLeftWaiting | nado-rust-sdk/src/subscriptions.rs:460-471 | once the worker has let go of the channel, every call it received was answered or failed, every other saw a dropped channel or a refusal, unless its caller gave up |
| RpcClient.DroppedOnlyAfterExit | nado-rust-sdk/src/subscriptions.rs:336-352 | a dropped channel or a refusal is seen only after the worker's exit |
| RpcClient.VerdictIsFinal | nado-rust-sdk/src/subscriptions.rs:336-471 | a call is resolved at most once |

## Left out

- WebSocket, TLS, deflate, HTTP, ping tasks, backoff and timers: a session or worker is a sequence of steps that may end in an error anywhere.
- JSON parsing and symbol normalisation: the models start from parsed deltas, rows and responses; symbols enter already normalised.
- SQL and transactions: the candle table is a map with the conflict rule; an upsert either happens as a whole or not at all.
- Two symbols that share one product in the candle table: the table key omits the symbol (gateway/chart/src/store.rs:61) while loading filters on it (gateway/chart/src/store.rs:179); the theorems carry one symbol per product as a hypothesis.
- Candle subscribers: a backfill replaces the cache without emitting (gateway/chart/src/market.rs:689-691), so no such guarantee holds for them.
- Floating point: `x18_to_f64`, `pow_x18`, `sqrt_x18`, `fmul_x18`, the display fields of levels and the annualised funding rate's arithmetic; market figures are opaque values with equality, and a flag says whether one is finite.
- Overflow of 128-bit running totals in a depth view, of 64-bit sequence numbers and of request ids: these counters are unbounded here.
- The 256-bit type of the `try_` operations belongs to a library that is not part of this model; its narrowing is taken to fail exactly when a value does not fit 128 bits, and its division to truncate toward zero.
- Unicode: a character is a byte, as in ASCII input; the original parser slices bytes.
- X18Exp.FexpX18: for exponents of 2^126 and above the original never leaves its loop, so the method requires a smaller exponent.
- X18Exp.FexpX18Error: for bases of magnitude above one that are not whole, truncation errors grow with the power and no bound is stated.
- IntExp.Fexp: the same bound as for the fixed-point power.
- Wrapping.FexpWrapping: the same bound again.
- Decimal.ParseTruncatesFraction: an overflow of the parsed value aborts with overflow checks; the wrapped value of the other build is not modelled.
- OrderPrice.OrderPriceMeaning: stated where the scaled oracle price is representable, where both builds agree; outside that range only the clamp is claimed, and only of the checked build.
- Candles.SeriesState.ApplyRow: requires a cache within its capacity, which every other operation establishes and the configuration's clamps make possible.
- Markets.BuildMarketRows: row keys that collide within one source are not modelled, because the original's result then depends on hash order.
- Order of rows inside one market delta: hash order in the original, any order here.
- The 2048-message limit of the market broadcast channel: a client may lag at any time and by any amount.
- The consumer of market deltas is a browser client; folding a message means setting the updated rows and deleting the removed keys.
- Dropping the RPC client aborts its worker task: no caller can be waiting then, and the model has no such step.
- A caller that gives up leaves its entry pending in the worker until an answer or the exit; nothing is claimed about how long.
- Relaxed ordering of the atomic counters: each read-modify-write is one atomic step.
- Supervisor keys: the pair of symbol and granularity is one opaque key, and the check for a supported granularity is part of the directory; the record of callers and spawned handles is bookkeeping of the model.
- The execution gateway, the Go gateway, the portfolio mapping, the React client, and the SDK's other builders and query wrappers.
- An appendix that the caller supplies to the order builder, over which it ORs its fields: the model starts from the version alone.
