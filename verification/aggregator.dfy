/**
 * The aggregation loop of obagg/src/aggregator.rs. It keeps the latest book of each exchange,
 * merges the two on every update, builds the outbound summary and sends it to every subscriber
 * in the pool. The pool is a sequence of subscribers whose send succeeds exactly when their
 * channel is open.
 */
module Aggregator {
  import opened Wrappers
  import opened Ordered
  import opened Definitions

  /** The summary sent to subscribers: spread, bids best first, asks best first. */
  datatype Summary = Summary(spread: real, bids: seq<Level>, asks: seq<Level>)

  datatype Subscriber = Subscriber(id: nat, open: bool)

  /** One send of a summary to one subscriber, and whether it went through. */
  datatype Delivery = Delivery(subscriber: nat, summary: Summary, delivered: bool)

  /**
   * What one received item leads to: an error item is skipped, an update arriving with an empty
   * pool is dropped, an empty merged side makes the spread index panic, and otherwise the summary
   * is broadcast, with the indexes of the failed sends logged.
   */
  datatype Outcome =
    | Skipped
    | Dropped
    | Panicked
    | Broadcast(summary: Summary, deliveries: seq<Delivery>, failed: seq<nat>)

  /** The two cached books. */
  datatype CacheState = CacheState(binance: Orderbook, bitstamp: Orderbook)

  /** `side`'s levels relabelled with `exchange` and inserted over `base`, key by key. */
  function Overlay(base: Side, side: Side, exchange: string): Side {
    map k | k in base.Keys + side.Keys :: if k in side then Level(k, side[k].amount, exchange) else base[k]
  }

  /**
   * A merged side: the binance levels labelled "binance", then the bitstamp levels labelled
   * "bitstam" inserted over them, each keyed by its price and carrying its cached amount.
   */
  function MergedSide(binance: Side, bitstamp: Side): Side {
    Overlay(Overlay(map[], binance, "binance"), bitstamp, "bitstam")
  }

  /**
   * The merged keys are the union of both caches' keys; at a price both quote, the bitstamp
   * amount wins; every merged level carries its own price.
   */
  lemma MergedSideUnion(binance: Side, bitstamp: Side)
    ensures var r := MergedSide(binance, bitstamp);
      && (forall k :: k in r <==> k in binance || k in bitstamp)
      && PricesMatchKeys(r)
      && (forall k :: k in bitstamp ==> r[k].amount == bitstamp[k].amount && r[k].exchange == "bitstam")
      && (forall k :: k in binance && k !in bitstamp ==> r[k].amount == binance[k].amount && r[k].exchange == "binance")
  {
  }

  /** The inserts of `side`'s levels at `keys`, in that order, relabelled with `exchange`, over `base`. */
  function InsertAt(base: Side, side: Side, keys: seq<real>, exchange: string): Side
    requires forall i :: 0 <= i < |keys| ==> keys[i] in side
    decreases |keys|
  {
    if keys == [] then base
    else
      var k := keys[|keys| - 1];
      InsertAt(base, side, keys[..|keys| - 1], exchange)[k := Level(k, side[k].amount, exchange)]
  }

  /** After the inserts, a key holds the relabelled level when it was inserted and its base level otherwise. */
  lemma {:induction false} InsertAtMembers(base: Side, side: Side, keys: seq<real>, exchange: string)
    requires forall i :: 0 <= i < |keys| ==> keys[i] in side
    ensures var r := InsertAt(base, side, keys, exchange);
      && (forall k :: k in r <==> k in base || k in keys)
      && (forall k :: k in keys ==> r[k] == Level(k, side[k].amount, exchange))
      && (forall k :: k in base && k !in keys ==> r[k] == base[k])
    decreases |keys|
  {
    if keys != [] {
      var init := keys[..|keys| - 1];
      InsertAtMembers(base, side, init, exchange);
      assert keys == init + [keys[|keys| - 1]];
    }
  }

  /** One `while let` loop inserting every level of `side`, in key order, relabelled with `exchange`. */
  method InsertRelabelled(base: Side, side: Side, exchange: string) returns (r: Side)
    ensures r == Overlay(base, side, exchange)
  {
    var keys := Ascending(side.Keys);
    r := InsertLoop(base, side, keys, exchange);
    InsertAtMembers(base, side, keys, exchange);
    OverlayByMembers(r, base, side, exchange);
  }

  method InsertLoop(base: Side, side: Side, keys: seq<real>, exchange: string) returns (r: Side)
    requires forall i :: 0 <= i < |keys| ==> keys[i] in side
    ensures r == InsertAt(base, side, keys, exchange)
  {
    r := base;
    for i := 0 to |keys|
      invariant r == InsertAt(base, side, keys[..i], exchange)
    {
      assert keys[..i + 1][..i] == keys[..i];
      r := r[keys[i] := Level(keys[i], side[keys[i]].amount, exchange)];
    }
    assert keys[..|keys|] == keys;
  }

  /** A side with exactly the members and levels of an overlay is that overlay. */
  lemma OverlayByMembers(r: Side, base: Side, side: Side, exchange: string)
    requires forall k :: k in r <==> k in base || k in side
    requires forall k :: k in r ==> r[k] == if k in side then Level(k, side[k].amount, exchange) else base[k]
    ensures r == Overlay(base, side, exchange)
  {
    var o := Overlay(base, side, exchange);
    assert forall k :: k in r <==> k in o;
    assert r.Keys == o.Keys;
    assert forall k :: k in r ==> r[k] == o[k];
  }

  /** The binance loop and then the bitstamp loop that build one merged side. */
  method MergeSide(binance: Side, bitstamp: Side) returns (r: Side)
    ensures r == MergedSide(binance, bitstamp)
  {
    r := InsertRelabelled(map[], binance, "binance");
    r := InsertRelabelled(r, bitstamp, "bitstam");
  }

  /** The levels of `m` at `keys`, in that order: what a `push` loop over an ordered iterator builds. */
  function LevelsInOrder(m: Side, keys: seq<real>): (r: seq<Level>)
    requires forall i :: 0 <= i < |keys| ==> keys[i] in m
    ensures |r| == |keys|
    ensures forall i :: 0 <= i < |keys| ==> r[i] == m[keys[i]]
    decreases |keys|
  {
    if keys == [] then [] else LevelsInOrder(m, keys[..|keys| - 1]) + [m[keys[|keys| - 1]]]
  }

  /** A `while let ... { out.push(level.clone()) }` loop. */
  method PushLevels(m: Side, keys: seq<real>) returns (out: seq<Level>)
    requires forall i :: 0 <= i < |keys| ==> keys[i] in m
    ensures out == LevelsInOrder(m, keys)
  {
    out := [];
    for i := 0 to |keys|
      invariant out == LevelsInOrder(m, keys[..i])
    {
      assert keys[..i + 1][..i] == keys[..i];
      out := out + [m[keys[i]]];
    }
    assert keys[..|keys|] == keys;
  }

  /**
   * `bids_reduced`: the `depth` highest bids when there are more, else all of them. The source
   * computes it and never reads it afterwards.
   */
  function BidsReduced(bids: Side, depth: nat): (r: Side)
    requires depth > 0 || |bids| == 0
    ensures IsSubmap(r, bids)
    ensures |bids| <= depth ==> r == bids
    ensures |bids| > depth ==>
      |r| == depth && forall k, k' :: k in r && k' in bids && k' !in r ==> k' < k
  {
    if |bids| > depth then Highest(bids, depth) else bids
  }

  /** `asks_reduced`: the `depth` lowest asks when there are more, else all of them. */
  function AsksReduced(asks: Side, depth: nat): (r: Side)
    ensures IsSubmap(r, asks)
    ensures |asks| <= depth ==> r == asks
    ensures |asks| > depth ==>
      |r| == depth && forall k, k' :: k in r && k' in asks && k' !in r ==> k < k'
  {
    if |asks| > depth then Lowest(asks, depth) else asks
  }

  /** `bids_out`: every merged bid, highest price first. */
  function BidsOut(bids: Side): seq<Level> {
    LevelsInOrder(bids, Descending(bids.Keys))
  }

  /** `asks_out`: the reduced asks, lowest price first. */
  function AsksOut(asks: Side, depth: nat): seq<Level> {
    var reduced := AsksReduced(asks, depth);
    LevelsInOrder(reduced, Ascending(reduced.Keys))
  }

  /** One delivery per subscriber, in pool order, each of the same summary. */
  function Deliveries(pool: seq<Subscriber>, summary: Summary): (r: seq<Delivery>)
    ensures |r| == |pool|
    ensures forall i :: 0 <= i < |pool| ==> r[i] == Delivery(pool[i].id, summary, pool[i].open)
    decreases |pool|
  {
    if pool == [] then [] else Deliveries(pool[..|pool| - 1], summary) + [Delivery(pool[|pool| - 1].id, summary, pool[|pool| - 1].open)]
  }

  /** The counter values `i` the send loop logs: the positions of the failed sends, in order. */
  function FailedIndexes(pool: seq<Subscriber>): (r: seq<nat>)
    ensures forall j :: 0 <= j < |r| ==> r[j] < |pool| && !pool[r[j]].open
    ensures forall i :: 0 <= i < |pool| && !pool[i].open ==> i in r
    ensures forall j, j' :: 0 <= j < j' < |r| ==> r[j] < r[j']
    decreases |pool|
  {
    if pool == [] then []
    else
      var init := FailedIndexes(pool[..|pool| - 1]);
      if pool[|pool| - 1].open then init else init + [|pool| - 1]
  }

  /** What `aggregate_orderbooks` does with one received item, given the pool at that moment. */
  function AggregateStep(c: CacheState, depth: nat, msg: Result<Orderbooks, string>, pool: seq<Subscriber>): (CacheState, Outcome)
    requires depth > 0
  {
    match msg
    case Failure(_) => (c, Skipped)
    case Success(ob) =>
      if |pool| == 0 then (c, Dropped)
      else
        var c' := match ob
          case Binance(b) => c.(binance := b)
          case Bitstamp(b) => c.(bitstamp := b);
        (c', Publish(c', depth, pool))
  }

  /** The summary of the merged caches, or `None` where indexing an empty side panics. */
  function SummaryOf(c: CacheState, depth: nat): Option<Summary> {
    SummaryFrom(BidsOut(MergedSide(c.binance.bids, c.bitstamp.bids)),
                AsksOut(MergedSide(c.binance.asks, c.bitstamp.asks), depth))
  }

  /** The summary of two outbound sides: the spread is the best ask less the best bid. */
  function SummaryFrom(bidsOut: seq<Level>, asksOut: seq<Level>): Option<Summary> {
    if |bidsOut| == 0 || |asksOut| == 0 then None
    else Some(Summary(asksOut[0].price - bidsOut[0].price, bidsOut, asksOut))
  }

  /** Merge the caches, build the summary and send it to the pool. */
  function Publish(c: CacheState, depth: nat, pool: seq<Subscriber>): Outcome {
    match SummaryOf(c, depth)
    case None => Panicked
    case Some(summary) => Broadcast(summary, Deliveries(pool, summary), FailedIndexes(pool))
  }

  /** With no subscriber, an update is dropped before it reaches the caches. */
  lemma EmptyPoolDropsUpdate(c: CacheState, depth: nat, ob: Orderbooks, pool: seq<Subscriber>)
    requires depth > 0 && |pool| == 0
    ensures AggregateStep(c, depth, Success(ob), pool) == (c, Dropped)
  {
  }

  /** An update replaces the cache of its own exchange and leaves the other one as it was. */
  lemma UpdateReplacesOwnCache(c: CacheState, depth: nat, ob: Orderbooks, pool: seq<Subscriber>)
    requires depth > 0 && |pool| > 0
    ensures var c' := AggregateStep(c, depth, Success(ob), pool).0;
      && (ob.Binance? ==> c'.binance == ob.binance && c'.bitstamp == c.bitstamp)
      && (ob.Bitstamp? ==> c'.bitstamp == ob.bitstamp && c'.binance == c.binance)
  {
  }

  /** `bids_out` is every merged bid, once each, in strictly descending price order. */
  lemma BidsOutAllDescending(bids: Side)
    requires PricesMatchKeys(bids)
    ensures var out := BidsOut(bids);
      && |out| == |bids|
      && (forall i :: 0 <= i < |out| ==> out[i].price in bids && bids[out[i].price] == out[i])
      && (forall p :: p in bids ==> exists i :: 0 <= i < |out| && out[i].price == p)
      && (forall i, j :: 0 <= i < j < |out| ==> out[i].price > out[j].price)
  {
    assert |bids| == |bids.Keys|;
    BidsOutPrices(bids);
    BidsOutCovers(bids);
  }

  /** The `i`-th outbound bid is the merged level at the `i`-th highest price. */
  lemma BidsOutPrices(bids: Side)
    requires PricesMatchKeys(bids)
    ensures var out := BidsOut(bids); var keys := Descending(bids.Keys);
      forall i :: 0 <= i < |out| ==> out[i].price == keys[i] && out[i] == bids[keys[i]]
  {
  }

  /** Every merged bid price appears in `bids_out`. */
  lemma BidsOutCovers(bids: Side)
    requires PricesMatchKeys(bids)
    ensures var out := BidsOut(bids);
      forall p :: p in bids ==> exists i :: 0 <= i < |out| && out[i].price == p
  {
    var keys := Descending(bids.Keys);
    var out := BidsOut(bids);
    BidsOutPrices(bids);
    forall p | p in bids ensures exists i :: 0 <= i < |out| && out[i].price == p {
      var i :| 0 <= i < |keys| && keys[i] == p;
      assert out[i].price == p;
    }
  }

  /** A `push` loop over keys carrying their own prices lists those prices in the same order. */
  lemma LevelsInOrderPrices(m: Side, keys: seq<real>)
    requires PricesMatchKeys(m)
    requires forall i :: 0 <= i < |keys| ==> keys[i] in m
    ensures forall i :: 0 <= i < |keys| ==> LevelsInOrder(m, keys)[i].price == keys[i]
  {
  }

  /** `asks_out` holds `min(depth, n)` merged asks, each as merged, in strictly ascending price order. */
  lemma AsksOutAscending(asks: Side, depth: nat)
    requires PricesMatchKeys(asks)
    ensures var out := AsksOut(asks, depth);
      && |out| == (if |asks| > depth then depth else |asks|)
      && (forall i :: 0 <= i < |out| ==> out[i].price in asks && asks[out[i].price] == out[i])
      && (forall i, j :: 0 <= i < j < |out| ==> out[i].price < out[j].price)
  {
    var reduced := AsksReduced(asks, depth);
    assert |reduced| == |reduced.Keys|;
    AsksOutPrices(asks, depth);
  }

  /** The `i`-th outbound ask is the reduced level at the `i`-th lowest reduced price. */
  lemma AsksOutPrices(asks: Side, depth: nat)
    requires PricesMatchKeys(asks)
    ensures var reduced := AsksReduced(asks, depth); var keys := Ascending(reduced.Keys);
            var out := AsksOut(asks, depth);
      forall i :: 0 <= i < |out| ==> out[i].price == keys[i] && out[i] == reduced[keys[i]] && out[i] == asks[keys[i]]
  {
    var reduced := AsksReduced(asks, depth);
    var keys := Ascending(reduced.Keys);
    var out := AsksOut(asks, depth);
    forall i | 0 <= i < |out| ensures out[i].price == keys[i] && out[i] == reduced[keys[i]] && out[i] == asks[keys[i]] {
      assert out[i] == reduced[keys[i]];
    }
  }

  /** Every merged ask that `asks_out` leaves out is priced above all the asks it holds. */
  lemma AsksOutLowest(asks: Side, depth: nat)
    requires PricesMatchKeys(asks)
    ensures var out := AsksOut(asks, depth);
      forall p, i :: p in asks && 0 <= i < |out| && (forall j :: 0 <= j < |out| ==> out[j].price != p) ==> out[i].price < p
  {
    var reduced := AsksReduced(asks, depth);
    var keys := Ascending(reduced.Keys);
    var out := AsksOut(asks, depth);
    assert IsSubmap(reduced, asks);
    LevelsInOrderPrices(reduced, keys);
    forall p, i | p in asks && 0 <= i < |out| && (forall j :: 0 <= j < |out| ==> out[j].price != p)
      ensures out[i].price < p
    {
      assert p !in reduced;
      assert keys[i] in reduced;
    }
  }

  /**
   * When the summary goes out, its bids are all merged bids best first, its asks the best
   * `depth` merged asks best first, and the spread is best ask minus best bid.
   */
  lemma SummaryContents(c: CacheState, depth: nat, msg: Result<Orderbooks, string>, pool: seq<Subscriber>)
    requires depth > 0
    ensures var r := AggregateStep(c, depth, msg, pool);
      r.1.Broadcast? ==>
        && r.1.summary.bids == BidsOut(MergedSide(r.0.binance.bids, r.0.bitstamp.bids))
        && r.1.summary.asks == AsksOut(MergedSide(r.0.binance.asks, r.0.bitstamp.asks), depth)
        && |r.1.summary.bids| > 0 && |r.1.summary.asks| > 0
        && r.1.summary.spread == r.1.summary.asks[0].price - r.1.summary.bids[0].price
  {
  }

  /** Once an update reaches the merge, the spread index panics exactly when a merged side is empty. */
  lemma PanicsIffMergedSideEmpty(c: CacheState, depth: nat, ob: Orderbooks, pool: seq<Subscriber>)
    requires depth > 0 && |pool| > 0
    ensures var r := AggregateStep(c, depth, Success(ob), pool);
      r.1 == Panicked <==>
        |MergedSide(r.0.binance.bids, r.0.bitstamp.bids)| == 0 || |MergedSide(r.0.binance.asks, r.0.bitstamp.asks)| == 0
  {
    var r := AggregateStep(c, depth, Success(ob), pool);
    var bids := MergedSide(r.0.binance.bids, r.0.bitstamp.bids);
    var asks := MergedSide(r.0.binance.asks, r.0.bitstamp.asks);
    assert |bids| == |bids.Keys|;
    var reduced := AsksReduced(asks, depth);
    assert |reduced| == |reduced.Keys|;
  }

  /** A broadcast sends the same summary once to every subscriber and logs exactly the failed sends. */
  lemma BroadcastReachesEveryone(c: CacheState, depth: nat, msg: Result<Orderbooks, string>, pool: seq<Subscriber>)
    requires depth > 0
    ensures var r := AggregateStep(c, depth, msg, pool);
      r.1.Broadcast? ==>
        && |r.1.deliveries| == |pool|
        && (forall i :: 0 <= i < |pool| ==> r.1.deliveries[i] == Delivery(pool[i].id, r.1.summary, pool[i].open))
        && (forall i :: 0 <= i < |pool| ==> (i in r.1.failed <==> !pool[i].open))
  {
  }

  /**
   * The aggregation task: the two caches, replaced as updates arrive. `running` falls when the
   * spread index panics, which ends the task: no later item is received.
   */
  class Aggregator {
    const depth: nat
    var binanceCache: Orderbook
    var bitstampCache: Orderbook
    var running: bool

    function State(): CacheState
      reads this
    {
      CacheState(binanceCache, bitstampCache)
    }

    constructor(depth: nat)
      requires depth > 0
      ensures this.depth == depth
      ensures State() == CacheState(NewOrderbook(), NewOrderbook())
      ensures running
    {
      this.depth := depth;
      binanceCache := NewOrderbook();
      bitstampCache := NewOrderbook();
      running := true;
    }

    /** The body of the `while let Some(msg) = rx.recv()` loop, for one item and the current pool. */
    method Receive(msg: Result<Orderbooks, string>, pool: seq<Subscriber>) returns (outcome: Outcome)
      requires depth > 0
      requires running
      modifies this
      ensures (State(), outcome) == AggregateStep(old(State()), depth, msg, pool)
      ensures running <==> !outcome.Panicked?
    {
      match msg {
        case Failure(_) =>
          outcome := Skipped;
        case Success(ob) =>
          if |pool| == 0 {
            outcome := Dropped;
            return;
          }
          match ob {
            case Binance(b) => binanceCache := b;
            case Bitstamp(b) => bitstampCache := b;
          }
          outcome := BuildAndSend(State(), depth, pool);
          running := !outcome.Panicked?;
      }
    }
  }

  /** Merge, reduce and build the summary; `None` where the source's spread index panics. */
  method BuildSummary(c: CacheState, depth: nat) returns (summary: Option<Summary>)
    requires depth > 0
    ensures summary == SummaryOf(c, depth)
  {
    var bids := MergeSide(c.binance.bids, c.bitstamp.bids);
    var asks := MergeSide(c.binance.asks, c.bitstamp.asks);
    var bidsReduced := BidsReduced(bids, depth);
    var bidsOut := BuildBidsOut(bids);
    var asksOut := BuildAsksOut(asks, depth);
    summary := SummaryFrom(bidsOut, asksOut);
  }

  /** The `push` loop over `aggregated_bids.iter().rev()`. */
  method BuildBidsOut(bids: Side) returns (out: seq<Level>)
    ensures out == BidsOut(bids)
  {
    out := PushLevels(bids, Descending(bids.Keys));
  }

  /** The `split_off` of `asks_reduced` and the `push` loop over `asks_reduced.iter()`. */
  method BuildAsksOut(asks: Side, depth: nat) returns (out: seq<Level>)
    ensures out == AsksOut(asks, depth)
  {
    var reduced := AsksReduced(asks, depth);
    out := PushLevels(reduced, Ascending(reduced.Keys));
  }

  /** Everything after the cache update: the summary, then one send per subscriber. */
  method BuildAndSend(c: CacheState, depth: nat, pool: seq<Subscriber>) returns (outcome: Outcome)
    requires depth > 0
    ensures outcome == Publish(c, depth, pool)
  {
    var summary := BuildSummary(c, depth);
    match summary {
      case None =>
        outcome := Panicked;
      case Some(s) =>
        var deliveries, failed := SendAll(pool, s);
        outcome := Broadcast(s, deliveries, failed);
    }
  }

  /**
   * The send loop: one send of `summary` per pool entry, then a pass over the results with a
   * counter `i` that logs every failed send.
   */
  method SendAll(pool: seq<Subscriber>, summary: Summary) returns (deliveries: seq<Delivery>, failed: seq<nat>)
    ensures deliveries == Deliveries(pool, summary)
    ensures failed == FailedIndexes(pool)
  {
    deliveries := [];
    for j := 0 to |pool|
      invariant deliveries == Deliveries(pool[..j], summary)
    {
      assert pool[..j + 1][..j] == pool[..j];
      deliveries := deliveries + [Delivery(pool[j].id, summary, pool[j].open)];
    }
    assert pool[..|pool|] == pool;
    failed := [];
    var i := 0;
    while i < |deliveries|
      invariant i <= |deliveries|
      invariant failed == FailedIndexes(pool[..i])
    {
      assert pool[..i + 1][..i] == pool[..i];
      if !deliveries[i].delivered {
        failed := failed + [i];
      }
      i := i + 1;
    }
  }
}
