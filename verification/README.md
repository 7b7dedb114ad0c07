# A verified model of the market-data aggregator

The aggregator keeps one order book per exchange from a lossy stream of deltas, merges the
books into one ladder, and answers depth questions in exact fixed-point arithmetic. This
project models that program in Dafny and proves what it is for:

* a venue's local book is the venue's own book at a known update id, in every run, however
  frames, snapshots, resyncs, reconnects, refused pushes and engine pops interleave;
* the fast forms (sorted vectors, k-way merge, single outward walk, masked ring) are the simple
  ones (price maps, a sorted sum, one sweep per band, a queue);
* good streams are accepted from end to end, accepted batches make a venue LIVE, and from any
  state it can come back;
* the hand-offs between threads lose nothing and repeat nothing;
* how far truncation can move a published number.

`dafny verify dfyconfig.toml` checks everything.

## How the model is laid out

| file | modules | models |
|---|---|---|
| Levels.dfy | Levels | price levels and the maps they stand for |
| Book.dfy | SideBooks | the sorted vector of one side of a venue book |
| Feed.dfy | Feed, Sequencing | feed updates, venue books, gap-free logs |
| Binance.dfy | Binance, BinanceVenue | the REST/diff reconciliation and the venue's own history |
| OkxBybit.dfy | Okx, Bybit | the two snapshot-over-socket protocols |
| Venues.dfy | Venues | whole runs of any protocol |
| BinanceRuns.dfy, SocketRuns.dfy | BinanceRuns, SocketRuns | runs of one protocol: exactness, and which streams are accepted |
| Runner.dfy | Runners, Pipeline | the venue runner; runner, ring and engine together |
| Recovery.dfy | Recovery | what makes a runner LIVE, start over, and come back |
| Ring.dfy | Ring | the single-producer single-consumer ring |
| Fixed.dfy, Decimal.dfy | Fixed, Decimal | fixed-point arithmetic; parser and printer |
| Consolidated.dfy, MergeLaws.dfy | Merge, MergeLaws | the k-way merge and its laws |
| Analytics.dfy, BandBounds.dfy | Bands, BandBounds | depth bands and what truncation does to them |
| Engine.dfy | Engines | one publish |
| Subscribe.dfy | Subscribers | the conflating slot and the subscribe race |
| Service.dfy | Service | normalising requested bands |
| RateBudget.dfy | RateBudgets | the sliding-window budget |
| WsClient.dfy | WsClient | websocket write and close serialisation |

Objects whose methods change fields are classes; each method is proved equal to a step function
on values, and the theorems about whole runs are lemmas about those step functions. Where a
protocol emits an update, the model attaches the venue's ids to it (`Stamped`), which the
program does not carry further; they say what a gap is. `Kept`, `applied` and similar logs are
histories added for the same purpose.

Exactness is stated against the venue's own book as a function of its update id. A message is
truthful when the bids and asks it lists are that book at its id (a snapshot), or lead side by side
from the book at its base to the book at its id (a delta); for Binance also from every id it overlaps, which `BinanceVenue` derives from
a history of level changes: full-depth snapshots, and events U..u with U <= u that list every
price touched in the range with its quantity at u. Which messages arrive, how often and in what
order is left open. Truth need only begin at some moment with a snapshot after it, so a venue may
restart its numbering: what it said before does not enter into the claims about what it says since.

Frames and REST bodies start out parsed: a datatype lists every way parsing can end. Clocks,
sockets, timers, tokens from the rate budget and thread scheduling are parameters or events that
may come in any order. The level lists of messages and updates have a type, `GatedLevels`, that
holds what `Decimal.ParseLevelArray` lets through. Integers are unbounded except where a row below says otherwise
(`Decimal` uses bounded 64-bit types throughout; `Ring` counters wrap modulo 2^64).

## Where the code and its documentation differ

* The VWAP of a band is documented to lie between touch and worst price, and filled quantity
  times VWAP to equal filled notional. Both hold only up to truncation.
  `BandBounds.VolumeBandBracketedIff` and `BandBounds.OpenBandBracketedIff` say for every published
  band when its VWAP is bracketed: the sweep took something, and what its prices exceed the lowest
  of them by, weighted by quantity, covers the remainders lost in truncating each level's notional.
  `BandBounds.ProductIsNotionalIff`, `BandBounds.OpenProductIsNotionalIff` and
  `BandBounds.PriceProductIsNotionalIff` say of the published fields of every band when the product
  is exact: it fails on a division that is not even, and where a total does not fit 64 bits.
  `BandBounds.VwapCanFallBelowWorst` and `BandBounds.DustTargetIsNotBracketed` give ladders that
  break the bracket; `BandBounds.ProductCanMissNotional` and `BandBounds.CutQuantityMissesNotional`
  ladders on which both kinds of volume band miss the product, for each of the two reasons.
* When a volume band closes without consuming one representable unit, the code reports the touch
  as the worst price; the Python reference implementation reports zero. The model follows the code.
* A connection closed before its handshake completes is reported closed, but a handshake that
  then succeeds reopens it; on such a connection a failed write is repeated by the next send.
  `WsClient.InOrderIffNotFinishedEarly` states exactly when payload order is kept,
  `WsClient.PayloadCanBeRepeated` a run of six events from the start in which it is not.
* `FormatFixed(-2^63)` prints text that `ParseFixed` refuses (`Decimal.RoundTrip`).

## Model

| member | source | states |
|---|---|---|
| `SideBooks.SortBestFirstLastWins` | src/core/book.cc:19-33 | The in-place sort and dedupe leaves distinct prices, best first, and keeps for every price exactly its last entry. |
| `SideBooks.SideBook.LowerBound` | src/core/book.cc:39-41 | Bisection finds the number of leading levels strictly better than the price. |
| `SideBooks.SideBook.Apply` | src/core/book.cc:37-51 | Binary-search insert, replace or erase keeps the ladder invariant and is the map update at that price, other prices untouched. |
| `SideBooks.SideBook.ApplyBatch` | src/core/book.cc:53-86 | On both sides of the size threshold the level sequence is the one of applying the deltas one by one, and the map is the fold of the deltas. |
| `SideBooks.MergeLoop` | src/core/book.cc:62-85 | The two-cursor loop with its two tails produces the merge of the levels with the sorted changes. |
| `SideBooks.MergedIsOneByOne` | src/core/book.cc:60-85 | Merging sorted, deduplicated changes gives, level for level, the ladder of binary-search updates in the original order. |
| `SideBooks.MergedIsApplyLevels` | src/core/book.cc:64-85 | The merge is the fold of absolute changes on the price map. |
| `SideBooks.SideBook.Replace` | src/core/book.cc:88-95 | A snapshot gives the ladder of folding its entries from empty: last entry wins, zeros removed. |
| `SideBooks.SideBook.Invariant` | src/core/book.cc:97-106 | The self-check returns true exactly when the side is strictly ordered with positive prices and quantities. |
| `Levels.LadderCanonical` | src/core/book.h:16-21 | Two ladders standing for the same price map are the same sequence of levels. |
| `Feed.VenueBook.ApplyFeedUpdate` | src/core/book.cc:111-119 | A snapshot replaces both sides, a delta amends both, as price maps. |
| `Feed.VenueBook.ApplyAll` | src/aggregator/engine.cc:104-115 | Applying a popped batch to the sorted vectors is the fold of its updates on price maps. |
| `Binance.BinanceProtocol.OnFrame` | src/venues/binance.cc:45-91 | Buffer while unsynced (failing when full), then accept only an event starting right after the last id; the whole new state and what is appended. |
| `Binance.BinanceProtocol.OnRestSnapshot` | src/venues/binance.cc:93-159 | Drop, straddle check, contiguous replay: on success the snapshot and every survivor are emitted and the last id is the last survivor's; on failure nothing is emitted and the buffer is cleared. |
| `Binance.BinanceProtocol.DropOlder` | src/venues/binance.cc:112-115 | Exactly the leading events wholly older than the snapshot are dropped. |
| `Binance.BinanceProtocol.Replay` | src/venues/binance.cc:128-150 | Stages the survivors in order and reports a hole exactly when two neighbours are not contiguous. |
| `Binance.BinanceProtocol.Reset` | src/venues/binance.cc:28-33 | Back to the initial state. |
| `Binance.FrameAdvances` | src/venues/binance.cc:63-90 | A frame emits only what continues the position, moves the position to what it emitted, and emits nothing when refused. |
| `Binance.RestAdvances` | src/venues/binance.cc:112-158 | What a REST body makes the protocol emit has no gap: each event continues the update before it or, right after the snapshot, straddles it; the position becomes the last id emitted, and a refusal emits nothing. |
| `Binance.ContiguousBufferReconciles` | src/venues/binance.cc:112-140 | A contiguous buffer is reconciled if and only if it is empty or its first event starts no later than the snapshot's successor: only a real hole forces a resync. |
| `Binance.EventDelivers` | src/venues/binance.cc:63-90 | An event is accepted exactly when there is room to hold it or it starts right after the last id; it is buffered, or handed on with its own levels, times and ids, and the position moves to its end; a full buffer is given up. |
| `Binance.OtherFramesDeliverNothing` | src/venues/binance.cc:45-61 | Frames without a depth event hand on nothing and move nothing; the malformed ones are refused. |
| `Binance.SnapshotDelivers` | src/venues/binance.cc:112-158 | A snapshot is accepted exactly when the events that remain after dropping the leading older ones continue it; then it and every one of them are handed on, each with its own levels and times, and the position is the last one's end; otherwise nothing is and the buffer is given up. |
| `BinanceVenue.OverlapIsHarmless` | src/venues/binance.cc:117-126 | A truthful event applied at any id from just before its range to its end leads to the venue's book at its end. |
| `BinanceRuns.ReconciliationIsExact` | src/venues/binance.cc:63-157 | Over every run of resets, genuine events (lost, duplicated, reordered) and genuine snapshots, while synced the emitted updates fold to the venue's book at lastUpdateId. |
| `BinanceRuns.StartUpIff` | src/venues/binance.cc:63-157 | A contiguous stream of events with a snapshot delivered somewhere in it is accepted throughout if and only if the events held fit the buffer, the first does not start beyond the snapshot's successor, and the snapshot does not lie beyond the events held when more follow; then the snapshot and exactly the events ending beyond it are handed on in order, and the position is the end of the stream or the snapshot's id. |
| `BinanceRuns.BackwardEventMisleads` | src/venues/binance.cc:77-89 | Why events must satisfy U <= u: one that does not passes the continuity test and moves the position to an id whose book is not held. |
| `Okx.OkxProtocol.OnFrame` | src/venues/okx.cc:19-106 | Every kind of frame: verdict, new sequencing state, and the updates appended; a failing entry appends nothing. |
| `Okx.OkxProtocol.StageEntries` | src/venues/okx.cc:57-97 | The loop over entries: continuity before the no-change shortcut, all entries staged or the first failure reported. |
| `Okx.OkxProtocol.Reset` | src/venues/okx.cc:12-17 | Back to the initial state. |
| `Okx.FrameAdvances` | src/venues/okx.cc:63-105 | Emitted deltas continue the position one after another; a verdict other than OK leaves output and sequencing state untouched. |
| `Okx.HeartbeatLeavesPosition` | src/venues/okx.cc:63-80 | A no-change entry at the position its predecessors leave, anywhere in a frame, might as well not be in the frame. |
| `Okx.HeartbeatCannotHideGap` | src/venues/okx.cc:72-80 | A no-change entry away from that position, anywhere in a frame, makes the frame fail with nothing emitted and nothing moved; it asks for a resync unless an earlier entry failed first. |
| `Okx.BooksDeliver` | src/venues/okx.cc:57-105 | A frame is accepted exactly when every entry is complete and, in an update, each continues the one before it and the first the position; then every entry that changes the book is handed on with its own levels, time and numbers, and the position is the last entry's. |
| `Okx.OtherFramesDeliverNothing` | src/venues/okx.cc:19-55 | Frames without entries hand on nothing; a rejection, and nothing else, is fatal; exactly the malformed ones are refused. |
| `SocketRuns.OkxStreamIff` | src/venues/okx.cc:57-105 | A snapshot frame and update frames are accepted throughout if and only if their entries are complete and linked across frames; then all entries that change the book are handed on in order. |
| `Bybit.BybitProtocol.OnFrame` | src/venues/bybit.cc:19-72 | Every kind of frame: verdict, new state, and the update appended, including a snapshot in mid-stream. |
| `Bybit.BybitProtocol.Reset` | src/venues/bybit.cc:13-17 | Back to the initial state. |
| `Bybit.FrameAdvances` | src/venues/bybit.cc:51-71 | A delta is emitted only right after the last id; a verdict other than OK leaves output and state untouched. |
| `Bybit.BookDelivers` | src/venues/bybit.cc:43-71 | A book frame is accepted exactly when it is complete and is a snapshot or has the number after the last; then it is handed on with its own levels, time and number; a refusal changes nothing. |
| `Bybit.OtherFramesDeliverNothing` | src/venues/bybit.cc:19-42 | Frames without a book hand on nothing; a rejection, and nothing else, is fatal; exactly the malformed ones are refused. |
| `SocketRuns.BybitStreamIff` | src/venues/bybit.cc:43-71 | Book frames are accepted throughout if and only if each is complete and is a snapshot or numbered right after the one before; then all are handed on in order. |
| `Venues.HandleAdvances` | src/venues/venue.h:23-30 | Any protocol, any message: what is emitted continues the position without a gap or starts with a snapshot, and a refusal emits nothing. |
| `Venues.RunsAreGapFree` | src/venues/okx.cc:57-105 | After any sequence of inputs to any of the three protocols each emitted delta directly continues the update before it with no reset in between, none precedes a snapshot, and the position is the id of the last emission. |
| `Venues.RunsAreExact` | src/venues/bybit.cc:51-71 | Once messages tell the truth about one history and a snapshot was emitted since, the emitted updates of any run fold to the venue's book at the id of the last one, and at the protocol's position while it has one; earlier messages may belong to another numbering. |
| `Venues.TruthfulRunsAreExact` | src/venues/okx.cc:57-105 | With one history throughout the same holds at every moment of any run, because nothing is emitted before a snapshot. |
| `Sequencing.GapFreeFoldIsVenueBook` | src/core/book.cc:111-119 | A gap-free log folds to the venue's book at its last id when its last snapshot and what follows it are genuine, whatever came before or was cut out. |
| `Runners.VenueRunner.DoOnFrame` | src/venues/runner.cc:157-199 | The runner's reaction to each verdict, with the whole new state; the log stays without gaps and ends at the protocol's position, and LIVE means there is one. |
| `Runners.VenueRunner.DoOnRestReply` | src/venues/runner.cc:133-155 | The completion of a snapshot request: failure, refused reconciliation, or publish and report live; the same invariant is kept. |
| `Runners.VenueRunner.DoPublish` | src/venues/runner.cc:201-216 | A batch is accepted by the ring or, when the ring is full, discarded with a resync. |
| `Runners.VenueRunner.DoResync` | src/venues/runner.cc:218-233 | Leaves the live state, resets the protocol and asks for a new snapshot. |
| `Runners.VenueRunner.DoFetchSnapshot` | src/venues/runner.cc:126-133 | A token starts a request; without one the runner backs off. |
| `Runners.VenueRunner.DoConnect` | src/venues/runner.cc:60-82 | A new generation with a reset protocol. |
| `Runners.VenueRunner.DoOnOpen` | src/venues/runner.cc:112-124 | Syncing, and for a REST-seeded venue a snapshot request. |
| `Runners.VenueRunner.DoOnCloseOf` | src/venues/runner.cc:70-75 | A late close of a replaced connection changes nothing; a current one disconnects and schedules a reconnect. |
| `Runners.VenueRunner.DoOnSilence` | src/venues/runner.cc:84-97 | Silence marks the venue stale unless it is stopping or fatal. |
| `Pipeline.NoDeltaIsSkipped` | src/venues/runner.cc:126-233 | Over all interleavings the updates applied by the engine, followed by those in the ring, form blocks that start with a snapshot and continue without a gap; the first update accepted after a reset or a refused batch is a snapshot. |
| `Pipeline.LiveIsSynced` | src/venues/runner.cc:142-199 | After every handler in every run, a runner that reports LIVE has a synced protocol with a position. |
| `Recovery.AcceptedBatchIsLive` | src/venues/runner.cc:142-199 | The converse: in every run, an event that puts a batch into the ring leaves the runner LIVE with a position. |
| `Recovery.GoodFrameGoesLive` | src/venues/runner.cc:186-199 | A frame that yields updates is handed on as one batch and the venue is LIVE, unless the ring is full. |
| `Recovery.GoodReplyGoesLive` | src/venues/runner.cc:142-154 | So is a reconciled snapshot, while the runner is not stopping. |
| `Recovery.OtherFrames` | src/venues/runner.cc:164-185 | A gap, an unreadable frame and a full ring make the runner start over with a reset protocol and, for a REST venue, a request or an armed reconnect; a rejection is final; a frame that yields nothing changes only the protocol. |
| `Recovery.OtherReplies` | src/venues/runner.cc:133-149 | A failed request disconnects and arms the reconnect; a snapshot that is refused or finds the ring full makes the runner start over. |
| `Recovery.LivenessEnds` | src/venues/runner.cc:70-97 | Silence and the end of the current connection take the venue out of LIVE and the latter arms the reconnect; the end of an older connection does nothing. |
| `Recovery.StopIsRemembered` | src/venues/runner.cc:40-41 | A request to stop is remembered and changes nothing else. |
| `Recovery.NothingStartsAfterTheEnd` | src/venues/runner.cc:60-61 | Once stopping or fatal no event opens a connection, and once stopping none asks for a snapshot. |
| `Recovery.FirstSnapshotGoesLive` | src/venues/runner.cc:33-39 | A new runner connects by itself and the first complete snapshot of its venue makes it LIVE at the snapshot's id. |
| `Recovery.ReconnectingGoesLive` | src/venues/runner.cc:60-233 | From every reachable state that is not stopped or rejected and has room in the ring, a reconnection ending in a complete snapshot makes the venue LIVE at the snapshot's id with the snapshot as the newest batch. |
| `Pipeline.EngineBookSince` | src/aggregator/engine.cc:104-115 | Over all interleavings, once messages tell the truth about one history and the engine has applied a snapshot handed over since, what it applied folds to the venue's book at the id of the last update, and at the protocol's position when LIVE with a drained ring. |
| `Pipeline.EngineBookIsVenueBook` | src/aggregator/engine.cc:104-115 | With one history throughout the same holds at every moment. |
| `Pipeline.Ingest.OnEvent` | src/venues/runner.cc:60-233 | Runner and book as objects: every event keeps the pipeline invariant and leaves in the sorted vectors the fold of the applied updates. |
| `Pipeline.RunEvents` | src/aggregator/engine.cc:104-115 | After any events the contents of the engine's `VenueBook` are, with truthful messages, the venue's own book. |
| `Pipeline.RingRefinesQueue` | src/venues/runner.cc:201-216 | When the steps on the real ring take effect as the pushes and pops of a pipeline run, what waits in the ring is what the pipeline says waits there. |
| `Pipeline.RingCarriesRun` | src/core/spsc_ring.h:23-37 | Every pipeline run is the effect of some steps on the real ring. |
| `Ring.RoundUpPow2` | src/core/spsc_ring.h:46-50 | For every request on which the loop ends, the least power of two not below it. |
| `Ring.RoundingEndsIff` | src/core/spsc_ring.h:46-50 | With 64-bit shifts the loop ends if and only if the request is at most 2^63; beyond, the value becomes zero and stays so. |
| `Ring.MaskIsMod` | src/core/spsc_ring.h:21-26 | Masking with a power of two less one is the remainder. |
| `Ring.SlotOfWrapped` | src/core/spsc_ring.h:24-35 | A counter wrapped at 2^64 addresses the slot of the true count, because the capacity divides 2^64. |
| `Ring.RingIsFifo` | src/core/spsc_ring.h:23-37 | Over every interleaving of loads, slot accesses and stores, popped values followed by the slots between the counters are the pushed values in order, across wraparound. |
| `Ring.SlotsAreNeverShared` | src/core/spsc_ring.h:26-34 | The slot about to be written is free, the one about to be read holds a value, and they differ. |
| `Ring.RefusalsAreExact` | src/core/spsc_ring.h:25-33 | A push is refused exactly when the ring is full at its tail load; a pop exactly when it is empty at its head load. |
| `Ring.RingLinearises` | src/core/spsc_ring.h:23-37 | The outcomes of all calls, in the order of their stores and refusing loads, are those of a bounded queue with atomic operations, which holds the values between the counters. |
| `Ring.RingRealises` | src/core/spsc_ring.h:23-37 | Conversely every run of such a queue is the effect of some steps of the ring. |
| `Ring.SpscRing.Push` | src/core/spsc_ring.h:23-29 | One uninterrupted call appends, or refuses a full ring and changes nothing. |
| `Ring.SpscRing.Pop` | src/core/spsc_ring.h:31-37 | One uninterrupted call removes the oldest value, or reports an empty ring. |
| `Fixed.NotionalBounds` | src/core/fixed.h:42-44 | The notional is the exact product less than one unit short. |
| `Fixed.PartialBounds` | src/core/fixed.h:49-53 | The quantity bought for less than a level's notional never exceeds the level's and never saturates; its notional misses the amount by less than a price step plus one unit. |
| `Fixed.BpsBounds` | src/core/fixed.h:60-64 | A distance in basis points keeps its sign and is exact to one unit; where that does not fit 64 bits it is the largest or smallest value. |
| `Fixed.OffsetIsExactOutward` | src/core/fixed.h:68-75 | The bound is the floor (bids) or ceiling (asks) of the exact offset price, held within 64 bits; without a positive reference and offset it is the reference. |
| `Fixed.OffsetMono` | src/core/fixed.h:70-75 | A wider offset never gives a tighter bound, saturation included. |
| `Decimal.ParseFixed` | src/core/fixed.cc:7-54 | In 64-bit arithmetic without overflow, returns exactly what the text means. |
| `Decimal.ParsedIsMeaning` | src/core/fixed.cc:7-54 | Accepted texts are exactly the well-formed numerals whose magnitude, truncated to eight decimals, is at most 2^63-1; the result is their signed value. |
| `Decimal.FormatFixed` | src/core/fixed.cc:56-83 | Prints sign, integer part and the kept fraction digits, in 64-bit arithmetic including the most negative value, for every number of decimals with which the scan stays in its buffer. |
| `Decimal.ScanLeavesBufferIff` | src/core/fixed.cc:71-72 | The scan for trailing zeros would read in front of the digit buffer if and only if the number of decimals is negative and all eight fraction digits are zero. |
| `Decimal.PrintedDecimals` | src/core/fixed.cc:71-72 | At least the requested decimals up to eight, no trailing zero beyond them, and a point exactly when there are any. |
| `Decimal.RoundTrip` | src/core/fixed.cc:7-83 | Reading what was printed gives the value back if and only if it is not -2^63, which is refused. |
| `Decimal.PrintedIsCanonical` | src/core/fixed.cc:60-82 | A negative value prints a minus in front and any other a digit; the integer digits spell the integer part with no zero in front unless they are "0". |
| `Decimal.ReadNumber` | src/net/json.h:89-120 | The digit loop accepts exactly an optional minus and digits whose value fits 64 bits, -2^63 included. |
| `Decimal.NumberRoundTrip` | src/net/json.h:89-120 | Every 64-bit number in plain decimal is read back as itself. |
| `Decimal.ParseLevelArray` | src/net/json.h:52-77 | All entries are read or none; what is read has positive prices and non-negative quantities. |
| `Decimal.LevelIsPriceThenQuantity` | src/net/json.h:58-74 | The first field is the price and the second the quantity: an entry is a level exactly when they mean a positive price and a quantity not below zero; further fields do not matter. |
| `Decimal.LevelRoundTrip` | src/net/json.h:58-74 | A level printed field by field is read back. |
| `Merge.MergeSide` | src/core/consolidated.cc:8-90 | The output is the published prefix of the sorted map of summed quantities, cut at the first level where a limit applies; truncated exactly when some level is left out. |
| `Merge.PickBest` | src/core/consolidated.cc:28-40 | The scan finds the best of the cursor heads, or that all inputs are exhausted. |
| `Merge.ConsumeAt` | src/core/consolidated.cc:62-73 | Every venue at the price is advanced and the quantity is their sum. |
| `Merge.MergeRound` | src/core/consolidated.cc:27-73 | The full ladder is the best price with its summed quantity followed by the merge of what remains. |
| `Merge.FullMergeIsLadder` | src/core/consolidated.cc:27-73 | The merged ladder lists every input price once, best first, with the summed quantity. |
| `MergeLaws.MergeIgnoresOrder` | src/core/consolidated.h:104-108 | The ladder is the same for every order of the venues. |
| `MergeLaws.MergeConservesQuantity` | src/core/consolidated.cc:62-73 | An untruncated merge holds exactly the quantity of all inputs together. |
| `MergeLaws.InsideOfMerge` | src/core/consolidated.cc:47-60 | Restricting the merged ladder to a bound is merging the restricted inputs. |
| `MergeLaws.FarLevelsHaveNoInfluence` | src/core/consolidated.h:85-90 | With a price limit, inputs that agree inside the bound from the touch publish the same ladder, whatever lies outside. |
| `MergeLaws.PublishedReaches` | src/core/consolidated.cc:42-85 | The first m levels are published if and only if the cap, the price limit and the notional target each let them. |
| `MergeLaws.OnlyPriceLimit` | src/core/consolidated.cc:47-60 | Where the cap leaves room for every level inside the price limit, exactly those are published. |
| `MergeLaws.BandsSurviveTheCut` | src/core/analytics.cc:116-126 | For all limits, a price band has on the published ladder the bound, quantity, notional, VWAP and level count it has on the full merge if and only if the limits let through every level inside the band; depth_limited can only become true. |
| `Bands.ComputeSideBands` | src/core/analytics.cc:92-199 | The single walk yields, in request order, each band of its own independent sweep, followed by exactly one open-ended band per family. |
| `Bands.EmitEmptyBands` | src/core/analytics.cc:21-38 | An empty side yields every requested band, zeroed, which is what the sweeps of an empty ladder give. |
| `Bands.ClosePriceBands` | src/core/analytics.cc:116-126 | Closes exactly the price bands the level falls outside of, from the state before it. |
| `Bands.CloseVolumeBands` | src/core/analytics.cc:128-150 | Completes exactly the volume bands whose target is reached inside the level. |
| `Bands.SweepCloses` | src/core/analytics.cc:130-156 | A sweep ending in a level takes everything before it and a part of it that never exceeds the level. |
| `Bands.TouchIsConsistent` | src/core/analytics.cc:73-90 | Best bid and ask are the first prices of their ladders or zero; the mid is their average rounded down, the spread ask less bid, crossed exactly when the bid reaches the ask, and the spread in basis points that of spread over mid to one unit or saturated; nothing is derived with a side missing. |
| `BandBounds.FullyFilledIff` | src/core/analytics.cc:130-186 | A volume band is fully filled exactly when the ladder's total notional reaches its target. |
| `BandBounds.FillShortfall` | src/core/analytics.cc:43-61 | A filled sweep never exceeds its target and misses it by less than one quantity unit at the closing price plus one notional unit. |
| `BandBounds.VolumeBandIsExact` | src/core/analytics.cc:43-61 | A published volume band reports exactly the levels its sweep consumed, with amounts held at the largest 64-bit value and a VWAP that never saturates. |
| `BandBounds.PriceBandIsExact` | src/core/analytics.cc:6-19 | A published price band reports exactly what rests inside its bound, with amounts held at the largest 64-bit value; depth_limited exactly when every level is inside. |
| `BandBounds.OpenBandsAreExact` | src/core/analytics.cc:158-199 | Both open-ended bands report the whole ladder: capped totals, average, level count and worst price, flagged open-ended and neither filled nor depth limited. |
| `BandBounds.SweepsAreMonotone` | src/core/analytics.h:67-76 | Quantity, notional and level count never decrease from a target to a larger one and never exceed the open-ended band. |
| `BandBounds.AverageBounds` | src/core/fixed.h:55-58 | Lowest price times quantity, less one unit per level, is at most the scaled notional, which is at most highest price times quantity. |
| `BandBounds.VwapBounds` | src/core/fixed.h:55-58 | The VWAP of consumed levels never exceeds the highest price and never saturates; it reaches the lowest price exactly when the quantity-weighted excess of the prices over it covers the sum of the remainders lost by truncation; its product with the quantity misses the notional by less than one unit. |
| `BandBounds.VolumeBandBracketedIff` | test/conformance/README.md:36-38 | On either side, a volume band's VWAP lies between touch and worst price if and only if the side is empty, or the sweep took something and the excess of its prices over the lowest covers the truncation loss. |
| `BandBounds.OpenBandBracketedIff` | test/conformance/README.md:36-38 | The same for the open-ended band, which takes the whole ladder. |
| `BandBounds.ProductIsNotionalIff` | README.md:389-391 | The published filled quantity times VWAP is the published filled notional if and only if `ProductExact` holds of the totals taken; with a 64-bit target, if and only if the notional is zero or the quantity fits 64 bits and divides it evenly. On the totals taken the product never exceeds the notional and misses by less than one VWAP unit. |
| `BandBounds.OpenProductIsNotionalIff` | README.md:389-391 | The same for the open-ended volume band, whose notional may be cut to 64 bits as well. |
| `BandBounds.PriceProductIsNotionalIff` | README.md:389-391 | The same for a price band and the levels inside its bound. |
| `BandBounds.DustTargetIsNotBracketed` | src/core/analytics.cc:130-150 | A concrete band that is fully filled with zero levels, VWAP zero and a positive worst price. |
| `BandBounds.VwapCanFallBelowWorst` | test/conformance/README.md:36-38 | A concrete ladder whose VWAP is below its worst price. |
| `BandBounds.ProductCanMissNotional` | README.md:389-391 | A concrete ladder with a division that is not even: published quantity times VWAP misses the published notional in the band of a target and in the open-ended band. |
| `BandBounds.CutQuantityMissesNotional` | src/core/analytics.cc:43-61 | A concrete ladder of 64-bit levels where the division is even and the product still misses in both kinds of band, because the published quantity saturates. |
| `BandBounds.WalkFitsWide` | src/core/analytics.cc:105-156 | Every 128-bit intermediate of the walk fits when the ladder's sum of price times quantity is below 2^127. |
| `BandBounds.BoundFitsWide` | src/core/fixed.h:70-75 | The bound of a price band is computed within 128 bits for all 64-bit inputs. |
| `Engines.SelectContributingVenues` | src/aggregator/engine.cc:120-169 | Contributing and stale venues partition all venues, in order: live and fresh, or not. |
| `Engines.ContributionExpires` | src/aggregator/engine.cc:140-158 | A LIVE venue is merged until the staleness timeout has passed since its last data; any other venue, and one that received nothing, is not. |
| `Engines.Publish` | src/aggregator/engine.cc:171-205 | Each side is the published merge of the contributing books, flagged truncated exactly when a level is missing; attributed quantities sum to the best level's and name exactly the contributing venues resting at its price. |
| `Engines.AttributeTouch` | src/aggregator/engine.cc:190-205 | The loop lists exactly the inputs whose own best price is the merged best. |
| `Engines.PublishBands` | src/aggregator/service.cc:260-298 | What a publish hands to the walk is a ladder of 64-bit levels when the summed quantities fit; the volume bands are the sweeps over the published part of the merge, and a price band is that of the whole merge if and only if the limits let through every level inside it. |
| `Subscribers.ConflatingSlot.Publish` | src/core/conflating_slot.h:26-36 | Refused once stopped; otherwise the newest value is pending and an unread one is counted as conflated. |
| `Subscribers.ConflatingSlot.TakePending` | src/core/conflating_slot.h:39-55 | Takes the pending value, if any, and leaves the slot empty. |
| `Subscribers.ConflatingSlot.Stop` | src/core/conflating_slot.h:57-64 | Afterwards the slot is stopped; the pending value stays to be drained. |
| `Subscribers.SubscriberSeesNewest` | src/aggregator/service.cc:197-239 | Over every interleaving with publishes, emitted sequence numbers strictly increase, and with the slot drained and no publish in flight the last considered one is the newest published. |
| `Subscribers.DeliveriesAreConserved` | src/core/conflating_slot.h:26-55 | Accepted publishes always equal taken plus conflated plus pending. |
| `Subscribers.LatestIsSentFirst` | src/aggregator/service.cc:209-218 | A new stream is sent the latest book at once, if there is one. |
| `Subscribers.PendingIsEmitted` | src/aggregator/service.cc:220-238 | A waking handler takes what is pending and emits it when it is newer than what it last considered, unless throttled. |
| `Subscribers.PublishReachesClient` | src/aggregator/service.cc:197-239 | From every reachable state with a registered, waiting stream, the next publish is emitted to a client that keeps up. |
| `Subscribers.StreamBegins` | src/aggregator/service.cc:197 | Registering puts the slot on the list. |
| `Subscribers.StreamEnds` | src/aggregator/service.cc:220-241 | A stopped slot, a failed write and a cancellation end the stream, whose slot is removed; the engine's end stops it. |
| `Subscribers.Subscription.OnStep` | src/aggregator/service.cc:197-239 | The slot object with the handler's and the engine's variables: every step, taken through the slot's own methods, keeps the invariant and is the step of the state machine. |
| `Subscribers.RunSteps` | src/aggregator/service.cc:197-239 | After any interleaving the objects satisfy what SubscriberSeesNewest says, and the slot accounts for every value. |
| `Service.NormaliseBands` | src/aggregator/service.cc:80-111 | Accepts exactly at most 32 positive, distinct values and returns them strictly ascending; an empty request gets the defaults. |
| `RateBudgets.RateBudget.TryConsume` | src/core/retry.h:46-51 | Expires, then grants or refuses, with the whole new state. |
| `RateBudgets.AtMostPerWindow` | src/core/retry.h:39-51 | For every non-decreasing sequence of calls, any closed interval no longer than the window contains at most max_events successes. |
| `RateBudgets.GrantedIffBudgetLeft` | src/core/retry.h:46-51 | A call is granted if and only if fewer than max_events earlier successes lie in the closed window before it. |
| `WsClient.WsConnection.Send` | src/net/ws_client.cc:159-162 | Queues, and starts a write when open and idle. |
| `WsClient.WsConnection.StartWrite` | src/net/ws_client.cc:164-174 | Writes the front of the queue when open. |
| `WsClient.WsConnection.WriteCompleted` | src/net/ws_client.cc:176-186 | Pops, then closes if a close was deferred, or writes the next payload. |
| `WsClient.WsConnection.DoClose` | src/net/ws_client.cc:217-235 | Closes, defers during a write, or finishes when not open. |
| `WsClient.WsConnection.DoFinish` | src/net/ws_client.cc:248-257 | Reports the close once. |
| `WsClient.WsConnection.HandshakeCompleted` | src/net/ws_client.cc:125-128 | A completed handshake opens the connection, also one that was already finished. |
| `WsClient.StreamIsSerialised` | src/net/ws_client.cc:159-257 | Over every order of events at most one write is outstanding, the close is issued at most once, never during a write and with nothing after it, and on_close fires at most once. |
| `WsClient.EverythingIsWritten` | src/net/ws_client.cc:159-186 | While writes succeed and nobody closes, as many completions as payloads wait leave everything sent written and nothing waiting. |
| `WsClient.WriteLeadsOn` | src/net/ws_client.cc:176-186 | A completed write pops its payload and then sends the deferred close or the next payload. |
| `WsClient.CloseGoesOut` | src/net/ws_client.cc:217-235 | A close on an open connection goes out at once, or right behind the write in flight. |
| `WsClient.OpeningConnects` | src/net/ws_client.cc:39-61 | Opening a good address starts a handshake. |
| `WsClient.OpeningFlushes` | src/net/ws_client.cc:125-133 | What was queued before the handshake completes starts to go out once it does. |
| `WsClient.SendGoesOut` | src/net/ws_client.cc:159-162 | A payload given to an open, idle connection goes out at once. |
| `WsClient.FailureReports` | src/net/ws_client.cc:248-257 | A bad address, a failed handshake, write or read, a close before opening and the end of the close handshake leave the connection finished, with the close reported once. |
| `WsClient.InOrderIffNotFinishedEarly` | src/net/ws_client.cc:125-133 | Payloads go out as a prefix of the Send order in every continuation if and only if the connection was not already finished when its handshake completed. |
| `WsClient.LateOpenRepeats` | src/net/ws_client.cc:176-178 | On a connection finished before it opened, failed writes lead to a payload out of order. |
| `WsClient.PayloadCanBeRepeated` | src/net/ws_client.cc:125-186 | Opened, closed during the handshake, opened late, one failed write: of two payloads sent the first is written twice. |

## Left out

- Weak memory: each atomic access is one sequentially consistent step; nothing below acquire and release is modelled.
- JSON: the simdjson document access in front of the protocols; a datatype of parse outcomes stands for it.
- 64-bit width of ids, timestamps and summed quantities in protocols and merge: unbounded integers, so wrap-around of an update id or of a sum at one price is not modelled.
- std::stable_sort, std::sort, std::lower_bound and std::to_string are modelled by definitions with the properties the code relies on.
- `ApplyBatch` leaves the caller's delta vector sorted; the model does not return it.
- The runner holds a protocol by value (its step function), not a reference to the protocol object; counters, logging and backoff jitter are not modelled.
- The engine's drain loop bound, heartbeat timing, latency percentiles and clock fields of a published book.
- Publishing can still use a book from before a resync: the runner may go LIVE between the engine's drain and its state read, so no claim is made that it cannot.
- Ring.RoundUpPow2: excludes the requests on which the loop never ends; `Ring.RoundingEndsIff` says which they are.
- Decimal.FormatFixed: excludes the arguments with which the code would read in front of its digit buffer; `Decimal.ScanLeavesBufferIff` says which they are.
- In the pipeline a handler of the venue's thread is one step, its push included; `Pipeline.RingRefinesQueue` joins the push and the pop to the interleaved steps of the ring, the other work of a handler touches nothing the engine reads except the state flag.
- One subscriber is modelled against the engine; subscribers do not interact. Throttling is an arbitrary choice at each book.
- ExponentialBackoff, url parsing, HTTP, TLS, resolving and connecting, flags, clients and protobuf filling: environment or easy members.
