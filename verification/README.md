# obagg order-book core in Dafny

obagg aggregates the order books of two exchanges, Binance and Bitstamp, into one summary. The
summary holds the merged bids, the merged asks and the spread, and goes to every gRPC subscriber.
This project models the book logic behind that and proves its properties:

- `wrappers.dfy` — `Option` and `Result`.
- `ordered.dfy` (module `Ordered`) — the ascending and descending key order in which a
  `BTreeMap` iterates, as sequences that hold every key once.
- `definitions.dfy` (module `Definitions`, for `obagg/src/definitions.rs`):
  - a book is two maps from exact price to `Level(price, amount, exchange)`;
  - the level accessors and `Orderbook::new`;
  - `Orderbook::reduce` with its `split_off` cuts;
  - the insert loops that build a fresh book from a message.
- `utils.dfy` (module `Utils`, for `obagg/src/utils.rs`):
  - `map_key`, the composite key that breaks price ties;
  - `handle_update_message`, which applies the first `d` updates of a delta to one side. It
    removes the levels of the other side that a positive update crosses, by walking a clone of
    that side with an iterator that persists across updates. The walk is a `ScanState`: both
    sides and the iterator position.
- `serde.dfy` (module `Serde`, for `obagg/src/serde.rs`) — the field deserialisers. The string
  parsers they wrap are parameters.
- `binance.dfy` (module `Binance`, for `obagg/src/binance.rs`):
  - the diff-depth synchroniser: the `last_update_id` / `is_first` / `prev_u` state machine over
    a local book, as the class `BinanceCollector`, specified by the pure function `Step`;
  - the snapshot rebuild;
  - the reduced-stream collector.
- `bitstamp.dfy` (module `Bitstamp`, for `obagg/src/bitstamp.rs`) — each message becomes a fresh
  book, which is reduced and sent.
- `aggregator.dfy` (module `Aggregator`, for `obagg/src/aggregator.rs`):
  - the two caches, as the class `Aggregator`, specified by `AggregateStep`;
  - the merge loops, the reduced sides and the `push` loops that build the summary;
  - the spread;
  - the send loop over the subscriber pool.

Every loop over a map or a list is a method with loop invariants, proved equal to a recursive
specification function. The properties are lemmas about those functions. The stream loops
(binance.rs:32 and binance.rs:119, bitstamp.rs:37, aggregator.rs:32) are modelled one item per
call: each call handles one stream item, and a run of the stream is a sequence of calls.

Prices and amounts are exact `real` numbers. A websocket frame is a `Frame`: a transport error,
a non-text message, or text with its decoded message (`None` when decoding fails). The REST
snapshot that `get_snapshot` would fetch is an input `fetched`, as a `Result`. A subscriber's
channel is a `Subscriber` whose `open` flag decides whether its send succeeds.

The model follows the code, including where it departs from what a reader of the system might expect:

- After an accepted Binance delta, `last_update_id` keeps the snapshot's id (binance.rs:180-210
  never assigns it). A replayed delta therefore passes the staleness test. It then fails the
  `prev_u + 1` test and triggers a resync; it is not silently ignored.
- A non-text Binance frame triggers a snapshot resync (binance.rs:127-140); it is not skipped.
- `reduce` cuts only when both sides exceed the depth (definitions.rs:23).
- The aggregator sends every merged bid (`bids_out` comes from `aggregated_bids`,
  aggregator.rs:116-119). It cuts only the asks.
- When a merged side is empty, `asks_out[0]` or `bids_out[0]` panics (aggregator.rs:125) and the
  aggregation task ends. The model's outcome for that case is `Panicked`, and the aggregator
  accepts no further item.
- A Binance delta goes through `handle_update_message` as written (binance.rs:183-198), whose
  crossing scan consumes the key that stops it. `Step` takes the scan behaviour as a parameter and
  the collector uses the consuming one, so an in-sequence delta can leave and send a crossed book
  (see "## Findings").
- The aggregator labels bitstamp levels `"bitstam"` (aggregator.rs:85-89).
- `map_key` is not used by the aggregator. Its tie-break is proved on its own.

## Model

| member | source | states |
|---|---|---|
| `Ordered.Ascending` | obagg/src/definitions.rs:24 | the keys of a side, each exactly once, in strictly ascending order (the order of `keys()`) |
| `Ordered.Descending` | obagg/src/aggregator.rs:116 | the keys of a side, each exactly once, in strictly descending order (the order of `iter().rev()`) |
| `Definitions.GetPrice` | obagg/src/definitions.rs:117-119 | the entry's price, which together with its amount gives back the whole entry; the `f64 -> String -> Decimal` conversion is taken as the identity |
| `Definitions.GetAmount` | obagg/src/definitions.rs:121-123 | the entry's amount, which together with its price gives back the whole entry |
| `Definitions.GetLevel` | obagg/src/definitions.rs:109-115 | the level carries the entry's price as price, its amount as amount and the given exchange name |
| `Definitions.NewOrderbook` | obagg/src/definitions.rs:14-19 | a new book has no bids and no asks |
| `Definitions.Bids` | obagg/src/definitions.rs:42-47 | the bids of the wrapped book, for either exchange variant |
| `Definitions.Asks` | obagg/src/definitions.rs:49-54 | the asks of the wrapped book, for either exchange variant |
| `Definitions.SplitOffFromAtKey` | obagg/src/definitions.rs:24-26 | `split_off` at the key in ascending position `i` returns `len - i` entries, unchanged, each above every entry it leaves |
| `Definitions.KeepBelowAtKey` | obagg/src/definitions.rs:28-30 | what `split_off` at the key in position `i` leaves: exactly `i` entries, unchanged, each below every entry removed |
| `Definitions.Highest` | obagg/src/definitions.rs:24-26 | the cut bids: exactly `n` unchanged entries, every kept price above every dropped one |
| `Definitions.Lowest` | obagg/src/definitions.rs:28-30 | the cut asks: exactly `n` unchanged entries, every kept price below every dropped one |
| `Definitions.Reduce` | obagg/src/definitions.rs:21-33 | both sides are sub-maps of the input. The book is unchanged unless both sides exceed the depth; then each side has exactly `depth` entries, the highest bids and the lowest asks. Depth 0 is excluded when both sides are non-empty, where the source indexes out of bounds |
| `Definitions.ReduceIdempotent` | obagg/src/definitions.rs:21-33 | reducing a reduced book changes nothing |
| `Definitions.ReduceKeepsWellFormed` | obagg/src/definitions.rs:21-33 | reducing keeps prices matching keys and amounts positive, and keeps an uncrossed book uncrossed |
| `Definitions.InsertAllAt` | obagg/src/binance.rs:247-256 | after the insert loop, a price holds the level of the last entry at that price; a price without entries keeps its old entry or absence |
| `Definitions.InsertAllPricesMatchKeys` | obagg/src/binance.rs:247-256 | the insert loop keys every level by its own price |
| `Definitions.InsertLevels` | obagg/src/binance.rs:247-251 | the `for ... insert` loop computes `InsertAll` |
| `Definitions.FreshBookAt` | obagg/src/bitstamp.rs:50-61 | in a book built from one message, a price is present iff the message has an entry at it, and it holds the level of the last such entry |
| `Definitions.FreshBookPricesMatchKeys` | obagg/src/bitstamp.rs:50-61 | a book built from a message keys every level by its own price |
| `Definitions.BuildFreshBook` | obagg/src/binance.rs:33-55 | the empty book filled by the bid and ask insert loops is `FreshBook` of the message |
| `Utils.HashKeyOffset` | obagg/src/utils.rs:12-14 | the price weight of a composite key is 10^16 |
| `Utils.MapKey` | obagg/src/utils.rs:16-28 | the level is returned unchanged, and the new key lies exactly the amount's magnitude away from `price * 10^16`: `+ amount` for bids with `identical_level_order` and for asks without it, `- amount` otherwise |
| `Utils.MapKeySidesOpposite` | obagg/src/utils.rs:17-27 | for a fixed flag, bids and asks take opposite branches, so their two keys are symmetric around `price * 10^16` |
| `Utils.MapKeyTieOrder` | obagg/src/utils.rs:17-27 | at equal prices, the added-amount branch orders keys by ascending amount and the subtracted branch by descending amount |
| `Utils.MapKeyKeepsPriceOrder` | obagg/src/utils.rs:12-28 | when the price gap times `10^16` exceeds both amounts, mapped keys keep the price order |
| `Utils.MapKeyTestOrder` | obagg/src/utils.rs:199-221 | the unit test's book: after mapping, the first bid and the first ask are binance's levels with amount 10.10 |
| `Utils.CloneOrder` | obagg/src/utils.rs:41-42 | the clone walked for a bid update is the asks, ascending; for an ask update it is the bids, descending (line 63); every key once |
| `Utils.Scan` | obagg/src/utils.rs:50-56 | the inner `while let` removes only opposite levels the update crosses, and moves the iterator forward only |
| `Utils.ScanClearsCrossing` | obagg/src/utils.rs:50-56 | every crossing key at or after the iterator position is removed |
| `Utils.PeekScanExact` | obagg/src/utils.rs:50-56 | when the scan stops without consuming the first non-crossing key, the remaining keys are exactly those from the new position, and the key there does not cross |
| `Utils.Upsert` | obagg/src/utils.rs:44-48 | a positive update stores its level at its price. Zero or a negative amount deletes the price, even if it was absent. Other prices are untouched |
| `Utils.UpsertAllAt` | obagg/src/utils.rs:43-48 | after several updates, the last update at a price decides it (stored when positive, absent otherwise); untouched prices keep their entries |
| `Utils.UpsertAllKeepsLevels` | obagg/src/utils.rs:43-48 | upserts keep levels keyed by their own prices and amounts positive |
| `Utils.UpdateLoopSide` | obagg/src/utils.rs:43-58 | the updated side after the loop is the upserts of the updates, whatever the crossing scan does |
| `Utils.UpdateLoopOther` | obagg/src/utils.rs:43-79 | the opposite side only loses entries, each crossed by some positive update; without a positive update it and the iterator are unchanged |
| `Utils.HandleSpec` | obagg/src/utils.rs:30-81 | what `handle_update_message` leaves in the book: the first `d` updates folded through the upsert and the crossing scan, with the scan behaviour as a parameter. Its properties are the `Handle…` lemmas below |
| `Utils.HandleUpdatedSide` | obagg/src/utils.rs:30-81 | `handle_update_message` leaves the updated side equal to the upserts of the first `d` updates |
| `Utils.HandleOppositeSide` | obagg/src/utils.rs:30-81 | the opposite side only loses levels. A positive bid removes only asks at or below it, and a positive ask only bids at or above it. Non-positive updates remove nothing |
| `Utils.HandleOnlyFirstD` | obagg/src/utils.rs:37 | updates past the first `d` have no effect |
| `Utils.HandleFirstPositiveClears` | obagg/src/utils.rs:41-56 | the first positive update removes every pre-existing opposite level it crosses |
| `Utils.HandleKeepsLevels` | obagg/src/utils.rs:30-81 | with either scan behaviour, levels stay keyed by their own prices with positive amounts |
| `Utils.CorrectedKeepsBookUncrossed` | obagg/src/utils.rs:30-81 | with the scan that stops without consuming the first non-crossing key, an uncrossed book stays uncrossed |
| `Utils.CorrectedKeepsWellFormed` | obagg/src/utils.rs:30-81 | with that scan, a well-formed book stays well formed |
| `Utils.AsWrittenLeavesCrossedLevel` | obagg/src/utils.rs:50-56 | as written, the iterator consumes the key that stops the scan: bids {9}, asks {10} and bid updates 9.5 then 10 leave 10 on both sides, for any `d >= 2`, with the asks untouched |
| `Utils.ScanClone` | obagg/src/utils.rs:50-56 | the inner loop with its `break` computes `Scan` |
| `Utils.ApplyUpdate` | obagg/src/utils.rs:44-57 | one pass of the outer loop body computes `ApplyLevel` |
| `Utils.HandleUpdateMessage` | obagg/src/utils.rs:30-81 | the loop over the first `d` updates computes `HandleSpec`, for either scan behaviour |
| `Serde.U32FromStr` | obagg/src/serde.rs:5-11 | success iff the string was read and parses, with the parsed value; a deserializer error passes through; a parse failure becomes a custom error with the parser's message |
| `Serde.U64FromStr` | obagg/src/serde.rs:13-19 | the same, for a 64-bit unsigned value |
| `Serde.Tf64FromStr` | obagg/src/serde.rs:21-41 | success iff the list was read, has two strings and both parse; the result is (price, amount) in that order |
| `Serde.Tf64RejectsWrongLength` | obagg/src/serde.rs:26-30 | a list of any other length fails with the fixed length message, before parsing |
| `Serde.Tf64SingleFailure` | obagg/src/serde.rs:33-36 | when exactly one part fails, its own error is returned unchanged |
| `Serde.Tf64CombinedFailure` | obagg/src/serde.rs:37-39 | when both fail, one error holds the fixed prefix, then the price error, a space and the amount error |
| `Binance.Step` | obagg/src/binance.rs:124-215 | one stream item of the synchroniser. When nothing is sent, the state is unchanged or resynchronised from the fetched snapshot. When a book is sent, it is the reduced new book tagged Binance, `is_first` is false and `last_update_id` is kept |
| `Binance.StaleDeltaDiscarded` | obagg/src/binance.rs:145-147 | a delta with `u <= last_update_id` changes no state and sends nothing |
| `Binance.GapResyncs` | obagg/src/binance.rs:148-160 | after the first delta, a `U` other than `prev_u + 1` is not applied. The snapshot replaces book and id and sets `is_first`; a failed fetch changes nothing |
| `Binance.FirstDeltaAcceptedIff` | obagg/src/binance.rs:162-178 | while `is_first` holds, a non-stale delta is applied iff `U <= last_update_id + 1 <= u`; otherwise the same resync happens |
| `Binance.AcceptedDeltaApplied` | obagg/src/binance.rs:162-210 | on acceptance: `is_first` falls, `prev_u := u`, `last_update_id` stays, bids then asks go through the update handler with the depth and the given scan behaviour, and exactly the reduced book is sent |
| `Binance.SentIffAccepted` | obagg/src/binance.rs:124-215 | a book is sent exactly when a decoded delta is accepted |
| `Binance.LastUpdateIdFromSnapshotOnly` | obagg/src/binance.rs:124-215 | `last_update_id` only ever keeps its value or takes a fetched snapshot's id |
| `Binance.FailedFetchChangesNothing` | obagg/src/binance.rs:131-137 | when the snapshot fetch fails, every step that sends nothing leaves the state as it was |
| `Binance.NonTextResyncs` | obagg/src/binance.rs:127-140 | a non-text frame loads the snapshot's book and id and sets `is_first`, sending nothing |
| `Binance.ReplayNotAppliedTwice` | obagg/src/binance.rs:145-160 | a delta just accepted, delivered again, is not applied and sends nothing |
| `Binance.StepKeepsLevels` | obagg/src/binance.rs:124-215 | with either scan behaviour, levels stay keyed by their own prices with positive amounts across any step, in the state and in every sent book |
| `Binance.CorrectedStepKeepsWellFormed` | obagg/src/binance.rs:180-201 | with the corrected scan and a well-formed fetched snapshot, a well-formed book stays well formed across any step, and every sent book is well formed |
| `Binance.AsWrittenStepSendsCrossedBook` | obagg/src/binance.rs:180-210 | with the scan as written, bids {9}, asks {10} and an in-sequence delta with bids 9.5 then 10 send a book with 10 on both sides, whose levels still match their prices and have positive amounts |
| `Binance.SnapshotThenDeltaScenario` | obagg/src/binance.rs:162-201 | snapshot id 100 with bid 10 x 1, then delta `U = u = 101` with bid 10 x 2: with either scan behaviour the delta is applied, a book is sent and bid 10 holds 2 |
| `Binance.GapScenario` | obagg/src/binance.rs:148-160 | with `prev_u = 101`, a delta `U = 105` resyncs and sends nothing |
| `Binance.BinanceCollector.constructor` | obagg/src/binance.rs:110-115 | the collector starts from the snapshot's book and id, with `is_first` set and `prev_u = 0` |
| `Binance.BinanceCollector.Resync` | obagg/src/binance.rs:131-138 | the new state is `ResyncState` of the old one: a fetched snapshot replaces book and id and sets `is_first`; a failed fetch changes nothing |
| `Binance.BinanceCollector.ConsumeMessage` | obagg/src/binance.rs:119-222 | the new state and the sent book are `Step` of the old state and the frame, with the scan as written |
| `Binance.BinanceCollector.ConsumeDelta` | obagg/src/binance.rs:143-208 | for a decoded delta, the new state and the sent book are `Step` of the old state and that delta, with the scan as written |
| `Binance.BinanceCollector.ApplyDelta` | obagg/src/binance.rs:179-208 | an accepted delta sets `prev_u` to its `u`, updates bids then asks through `handle_update_message` as written, keeps the id and sends the reduced book |
| `Binance.GetSnapshot` | obagg/src/binance.rs:232-258 | on success, the book is rebuilt from the snapshot alone and its id returned; on failure the book is untouched and the error returned |
| `Binance.ConsumeReducedMessage` | obagg/src/binance.rs:31-72 | a decoded message sends the fresh book of its own levels, unreduced; anything else sends nothing |
| `Bitstamp.ConsumeMessage` | obagg/src/bitstamp.rs:37-82 | a decoded message sends the reduced fresh book of its own levels, tagged Bitstamp; a rejected or undecodable frame sends nothing |
| `Bitstamp.SentBookFromMessageOnly` | obagg/src/bitstamp.rs:38-69 | each sent level is the last level of the message at its price; the sent book is the whole fresh book unless both sides exceed the depth |
| `Aggregator.MergedSideUnion` | obagg/src/aggregator.rs:72-90 | the merged keys are the union of both caches' keys. At a shared price the bitstamp amount wins, labelled `"bitstam"`. Every merged level carries its own price |
| `Aggregator.InsertRelabelled` | obagg/src/aggregator.rs:72-75 | one merge loop overlays a cache, relabelled with the exchange name, on the map built so far |
| `Aggregator.InsertLoop` | obagg/src/aggregator.rs:73-75 | the `while let ... insert` loop over given keys computes `InsertAt` |
| `Aggregator.MergeSide` | obagg/src/aggregator.rs:72-90 | the binance loop then the bitstamp loop build `MergedSide` |
| `Aggregator.LevelsInOrder` | obagg/src/aggregator.rs:116-123 | a push loop over ordered keys yields one level per key, in that order |
| `Aggregator.PushLevels` | obagg/src/aggregator.rs:116-123 | the `push` loop computes `LevelsInOrder` |
| `Aggregator.BidsReduced` | obagg/src/aggregator.rs:97-104 | above the depth, exactly the `depth` highest bids, unchanged; otherwise all of them. Depth 0 is excluded only for non-empty bids, where the source indexes out of bounds |
| `Aggregator.AsksReduced` | obagg/src/aggregator.rs:105-110 | above the depth, exactly the `depth` lowest asks, unchanged; otherwise all of them |
| `Aggregator.Deliveries` | obagg/src/aggregator.rs:130-132 | one send per pool entry, in pool order, all of the same summary |
| `Aggregator.FailedIndexes` | obagg/src/aggregator.rs:133-139 | the logged indexes are exactly the failed sends, ascending |
| `Aggregator.AggregateStep` | obagg/src/aggregator.rs:32-140 | one received item. An error is skipped, an update with an empty pool is dropped, and otherwise the sender's cache is replaced and the result is published. Its properties are the lemmas below |
| `Aggregator.Publish` | obagg/src/aggregator.rs:97-139 | the summary of the merged caches broadcast to the pool, or `Panicked` where the spread index has no element |
| `Aggregator.EmptyPoolDropsUpdate` | obagg/src/aggregator.rs:35-38 | with no subscriber, an update leaves both caches unchanged and sends nothing |
| `Aggregator.UpdateReplacesOwnCache` | obagg/src/aggregator.rs:49-60 | an update replaces its own exchange's cache and leaves the other untouched |
| `Aggregator.BidsOutAllDescending` | obagg/src/aggregator.rs:116-119 | `bids_out` holds every merged bid once, as merged, in strictly descending price order |
| `Aggregator.AsksOutAscending` | obagg/src/aggregator.rs:105-123 | `asks_out` holds `min(depth, n)` merged asks, as merged, in strictly ascending price order |
| `Aggregator.AsksOutLowest` | obagg/src/aggregator.rs:105-123 | every merged ask left out of `asks_out` is above every ask in it |
| `Aggregator.SummaryContents` | obagg/src/aggregator.rs:113-128 | a broadcast summary holds `bids_out` and `asks_out` of the updated caches, both non-empty, with spread = best ask price - best bid price |
| `Aggregator.PanicsIffMergedSideEmpty` | obagg/src/aggregator.rs:124-128 | with subscribers, the spread index panics iff a merged side is empty |
| `Aggregator.BroadcastReachesEveryone` | obagg/src/aggregator.rs:129-139 | every pool entry gets exactly one send of the summary, and a failed send does not stop the others |
| `Aggregator.Aggregator.constructor` | obagg/src/aggregator.rs:24-31 | both caches start empty and the task is running |
| `Aggregator.Aggregator.Receive` | obagg/src/aggregator.rs:32-140 | the new caches and the outcome are `AggregateStep` of the old caches, the message and the pool; a running task stops exactly when the outcome is `Panicked` |
| `Aggregator.BuildSummary` | obagg/src/aggregator.rs:72-128 | merge, reduce and push loops build `SummaryOf` the caches |
| `Aggregator.BuildBidsOut` | obagg/src/aggregator.rs:116-119 | the descending push loop computes `BidsOut` |
| `Aggregator.BuildAsksOut` | obagg/src/aggregator.rs:105-123 | the ask cut and the ascending push loop compute `AsksOut` |
| `Aggregator.BuildAndSend` | obagg/src/aggregator.rs:97-139 | everything after the cache update computes `Publish` |
| `Aggregator.SendAll` | obagg/src/aggregator.rs:129-139 | the send loop and the result loop compute `Deliveries` and `FailedIndexes` |

## Left out

- Depth 0. With depth 0, `reduce` and the aggregator's `bids_reduced` index one past the end of a
  non-empty key list and panic. `Definitions.Reduce` requires only what keeps its index in range.
- Binance.BinanceCollector.ConsumeMessage: requires `depth > 0` instead of modelling the panic of
  `reduce` when both sides are non-empty and the depth is 0.
- Bitstamp.ConsumeMessage: requires `depth > 0`, for the same reason.
- Aggregator.Aggregator.Receive: requires `depth > 0` instead of modelling the panic of
  `bids_reduced` at depth 0.
- Integer width. `prev_u + 1` and `last_update_id + 1` are `u64` additions that cannot overflow
  in the model (ids are `nat`). Bitstamp's `u32` and `u64` timestamps are the bounded newtypes
  `Serde.U32` and `Serde.U64`.
- Floating point. Prices, amounts and the spread are exact reals. The `f64 -> String -> Decimal`
  conversion in `get_price` and `map_key`, and the `Decimal -> f64` parse in the aggregator, are
  the identity.
- JSON decoding. `serde_json` and the derive macros are not modelled: a frame carries its decoded
  message or `None`. The field deserialisers are modelled, with the string parsers as parameters.
- Transport, timing and concurrency: the websocket connection and subscription, the Bitstamp ping
  task, the REST fetch, `mpsc` sends and their error logging, mutexes, the 100 ms sleep, and
  logging. The fetched snapshot is an input; a sent book or delivery is an output value.
- Binance.BinanceCollector.constructor: a failed first snapshot makes `consume_orderbooks`
  return an error before any state exists, so the constructor takes a fetched snapshot.
- Bitstamp's `bid.price()` and `ExchangeOrderbookLevel::Bitstamp(bid).into()` are not part of this
  model. They are taken to be the price and the level labelled `"bitstamp"`, like `get_price` and
  `get_level`. `utils::handle_message`, which bitstamp.rs calls, is commented out in utils.rs; the
  model lets only a text frame through.
- The aggregator's caches are the gRPC `Orderbook` type, which maps prices to amounts. The model
  keeps levels in the caches and reads only their amounts.
- The subscriber pool is a `HashMap`. Its iteration order is unspecified, so the model takes the
  pool as a sequence in that order. grpc.rs (adding and dropping subscribers), the server, the
  clients, configuration and the command-line entry points are not part of this model.
- Aggregator.BidsReduced: computed and discarded, as in the source. Nothing downstream reads it.

## Findings

| source | as written | input that shows it | evidently intended | confidence | as-written member | corrected member |
|---|---|---|---|---|---|---|
| obagg/src/utils.rs:50-56 | `other_iter.next()` consumes the first opposite key that does not cross before `break`, and the iterator is shared across updates, so that key is never re-examined (same at 71-77) | bids {9}, asks {10}; bid updates (9.5, 1) then (10, 1) with `d = 2`: 9.5 consumes ask 10 without removing it, 10 finds the iterator empty, and 10 is then both a bid and an ask | a positive bid removes every ask at or below it (and a positive ask every bid at or above it), keeping the book uncrossed; the scan should stop without consuming the non-crossing key | not executed | `Utils.AsWrittenLeavesCrossedLevel` | `Utils.CorrectedKeepsBookUncrossed` |

`Utils.HandleUpdateMessage` and `Binance.Step` take the scan behaviour as a parameter. The Binance
collector runs the scan as written (`ConsumeOnBreak`), and `Binance.AsWrittenStepSendsCrossedBook`
shows the crossed book reaching the output. `Binance.CorrectedStepKeepsWellFormed` proves the
corrected scan (`PeekOnBreak`) keeps the synchronised book well formed.
