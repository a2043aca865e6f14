/**
 * The order-book types shared by every collector and by the aggregator (obagg/src/definitions.rs).
 * Prices are exact decimals and amounts are exact reals; a book side is a map from price to level,
 * iterated in key order as a `BTreeMap` is.
 */
module Definitions {
  import opened Ordered
  import opened Wrappers

  /** A published price level: price, standing amount and the exchange that quoted it. */
  datatype Level = Level(price: real, amount: real, exchange: string)

  /** One `[price, amount]` entry of an exchange message. */
  datatype OrderbookLevel = OrderbookLevel(level: (real, real))

  /** `get_price`: the entry's price; with its amount it gives back the whole entry. */
  function GetPrice(l: OrderbookLevel): (p: real)
    ensures l == OrderbookLevel((p, GetAmount(l)))
  {
    l.level.0
  }

  /** `get_amount`: the entry's amount; with its price it gives back the whole entry. */
  function GetAmount(l: OrderbookLevel): (a: real)
    ensures l == OrderbookLevel((l.level.0, a))
  {
    l.level.1
  }

  /** The published level of a message entry: its price is the key it is stored under. */
  function GetLevel(l: OrderbookLevel, exchange: string): (r: Level)
    ensures r.price == GetPrice(l) && r.amount == GetAmount(l) && r.exchange == exchange
  {
    Level(l.level.0, l.level.1, exchange)
  }

  type Side = map<real, Level>

  datatype Orderbook = Orderbook(bids: Side, asks: Side)

  function NewOrderbook(): (r: Orderbook)
    ensures |r.bids| == 0 && |r.asks| == 0
  {
    Orderbook(map[], map[])
  }

  /** A collector's book, tagged with the exchange it comes from. */
  datatype Orderbooks = Binance(binance: Orderbook) | Bitstamp(bitstamp: Orderbook)

  function Bids(o: Orderbooks): (r: Side)
    ensures o.Binance? ==> r == o.binance.bids
    ensures o.Bitstamp? ==> r == o.bitstamp.bids
  {
    match o
    case Binance(b) => b.bids
    case Bitstamp(b) => b.bids
  }

  function Asks(o: Orderbooks): (r: Side)
    ensures o.Binance? ==> r == o.binance.asks
    ensures o.Bitstamp? ==> r == o.bitstamp.asks
  {
    match o
    case Binance(b) => b.asks
    case Bitstamp(b) => b.asks
  }

  /** Every entry of `m` is in `m'` with the same level. */
  ghost predicate IsSubmap(m: Side, m': Side) {
    forall k :: k in m ==> k in m' && m'[k] == m[k]
  }

  /** Every stored level carries the price it is keyed by. */
  ghost predicate PricesMatchKeys(m: Side) {
    forall p :: p in m ==> m[p].price == p
  }

  /** No stored level has a zero or negative amount. */
  ghost predicate PositiveAmounts(m: Side) {
    forall p :: p in m ==> m[p].amount > 0.0
  }

  /** Every bid is priced strictly below every ask. */
  ghost predicate Uncrossed(ob: Orderbook) {
    forall b, a :: b in ob.bids && a in ob.asks ==> b < a
  }

  /** Both sides keyed by their own prices, with positive amounts. */
  ghost predicate LevelsValid(ob: Orderbook) {
    && PricesMatchKeys(ob.bids) && PricesMatchKeys(ob.asks)
    && PositiveAmounts(ob.bids) && PositiveAmounts(ob.asks)
  }

  ghost predicate WellFormed(ob: Orderbook) {
    LevelsValid(ob) && Uncrossed(ob)
  }

  /** What `BTreeMap::split_off(&key)` returns: the entries at or above `key`. */
  function SplitOffFrom(m: Side, key: real): Side {
    map k | k in m && key <= k :: m[k]
  }

  /** What `BTreeMap::split_off(&key)` leaves in the map: the entries below `key`. */
  function KeepBelow(m: Side, key: real): Side {
    map k | k in m && k < key :: m[k]
  }

  lemma SplitOffFromAtKey(m: Side, i: nat)
    requires i < |m|
    ensures var keys := Ascending(m.Keys); var r := SplitOffFrom(m, keys[i]);
      && |r| == |m| - i
      && IsSubmap(r, m)
      && forall k, k' :: k in r && k' in m && k' !in r ==> k' < k
  {
    var keys := Ascending(m.Keys);
    var hi := SplitOffFrom(m, keys[i]);
    var lo := KeepBelow(m, keys[i]);
    KeepBelowAtKey(m, i);
    assert hi.Keys == m.Keys - lo.Keys;
    assert lo.Keys <= m.Keys;
    SubsetDifferenceCard(m.Keys, lo.Keys);
    assert |hi| == |hi.Keys|;
    assert |m| == |m.Keys|;
  }

  lemma SubsetDifferenceCard(a: set<real>, b: set<real>)
    requires b <= a
    ensures |a - b| == |a| - |b|
  {
    assert a == (a - b) + b;
  }

  lemma KeepBelowAtKey(m: Side, i: nat)
    requires i < |m|
    ensures var keys := Ascending(m.Keys); var r := KeepBelow(m, keys[i]);
      && |r| == i
      && IsSubmap(r, m)
      && forall k, k' :: k in r && k' in m && k' !in r ==> k < k'
  {
    var keys := Ascending(m.Keys);
    var lo := KeepBelow(m, keys[i]);
    KeepBelowKeys(m, i);
    DistinctCard(keys[..i]);
    assert |lo| == |lo.Keys|;
  }

  /** The keys below the `i`-th smallest key are the first `i` keys in ascending order. */
  lemma KeepBelowKeys(m: Side, i: nat)
    requires i < |m|
    ensures var keys := Ascending(m.Keys);
      KeepBelow(m, keys[i]).Keys == (set x | x in keys[..i])
  {
    var keys := Ascending(m.Keys);
    var lo := KeepBelow(m, keys[i]);
    var head := keys[..i];
    forall k ensures k in lo.Keys <==> k in (set x | x in head) {
      if k in lo.Keys {
        var j :| 0 <= j < |keys| && keys[j] == k;
        AscendingIndexOrder(keys, j, i);
        assert head[j] == k;
      }
      if k in (set x | x in head) {
        var j :| 0 <= j < |head| && head[j] == k;
        assert keys[j] == k;
        AscendingIndexOrder(keys, j, i);
      }
    }
  }

  /**
   * The `n` highest-priced entries, cut as the source does: `split_off` at the key in position
   * `len - n` of the ascending key list.
   */
  function Highest(m: Side, n: nat): (r: Side)
    requires 0 < n <= |m|
    ensures |r| == n && IsSubmap(r, m)
    ensures forall k, k' :: k in r && k' in m && k' !in r ==> k' < k
  {
    var i := |m| - n;
    var keys := Ascending(m.Keys);
    assert |keys| == |m| by { assert |m| == |m.Keys|; }
    SplitOffFromAtKey(m, i);
    SplitOffFrom(m, keys[i])
  }

  /**
   * The `n` lowest-priced entries, cut as the source does: `split_off` at the key in position
   * `n` of the ascending key list, keeping what lies below it.
   */
  function Lowest(m: Side, n: nat): (r: Side)
    requires n < |m|
    ensures |r| == n && IsSubmap(r, m)
    ensures forall k, k' :: k in r && k' in m && k' !in r ==> k < k'
  {
    var keys := Ascending(m.Keys);
    KeepBelowAtKey(m, n);
    KeepBelow(m, keys[n])
  }

  /**
   * `Orderbook::reduce`: a copy truncated to the best `depth` bids (highest prices) and asks
   * (lowest prices), but only when both sides exceed `depth`. With `depth == 0` and both sides
   * non-empty the source indexes one past the end of the key list, so that is excluded.
   */
  function Reduce(ob: Orderbook, depth: nat): (r: Orderbook)
    requires depth > 0 || |ob.bids| == 0 || |ob.asks| == 0
    ensures IsSubmap(r.bids, ob.bids) && IsSubmap(r.asks, ob.asks)
    ensures !(|ob.bids| > depth && |ob.asks| > depth) ==> r == ob
    ensures |ob.bids| > depth && |ob.asks| > depth ==>
      && |r.bids| == depth && |r.asks| == depth
      && (forall k, k' :: k in r.bids && k' in ob.bids && k' !in r.bids ==> k' < k)
      && (forall k, k' :: k in r.asks && k' in ob.asks && k' !in r.asks ==> k < k')
  {
    if |ob.bids| > depth && |ob.asks| > depth then
      Orderbook(Highest(ob.bids, depth), Lowest(ob.asks, depth))
    else
      ob
  }

  /** Reducing twice with the same depth is reducing once. */
  lemma ReduceIdempotent(ob: Orderbook, depth: nat)
    requires depth > 0 || |ob.bids| == 0 || |ob.asks| == 0
    ensures var r := Reduce(ob, depth);
      (depth > 0 || |r.bids| == 0 || |r.asks| == 0) && Reduce(r, depth) == r
  {
    var r := Reduce(ob, depth);
    if |ob.bids| > depth && |ob.asks| > depth {
      assert !(|r.bids| > depth);
    } else {
      assert r == ob;
    }
  }

  /** Truncation keeps each side's levels as they were, so a well-formed book stays well-formed. */
  lemma ReduceKeepsWellFormed(ob: Orderbook, depth: nat)
    requires depth > 0 || |ob.bids| == 0 || |ob.asks| == 0
    requires LevelsValid(ob)
    ensures LevelsValid(Reduce(ob, depth))
    ensures Uncrossed(ob) ==> Uncrossed(Reduce(ob, depth))
  {
  }

  /**
   * The side that a sequence of `side.insert(price, level)` calls leaves: each entry is stored
   * under its price, a later entry for the same price replacing an earlier one.
   */
  function InsertAll(side: Side, v: seq<OrderbookLevel>, exchange: string): Side
    decreases |v|
  {
    if v == [] then side
    else
      var l := v[|v| - 1];
      InsertAll(side, v[..|v| - 1], exchange)[GetPrice(l) := GetLevel(l, exchange)]
  }

  /** The position of the last entry of `v` priced `p`, or -1 when there is none. */
  function LastAt(v: seq<OrderbookLevel>, p: real): (r: int)
    ensures -1 <= r < |v|
    ensures r >= 0 ==> GetPrice(v[r]) == p
    ensures forall j :: r < j < |v| ==> GetPrice(v[j]) != p
    decreases |v|
  {
    if v == [] then -1
    else if GetPrice(v[|v| - 1]) == p then |v| - 1
    else LastAt(v[..|v| - 1], p)
  }

  /**
   * What an insert loop stores under `p`: the level of the last entry priced `p`, or the
   * side's old level when no entry has that price.
   */
  lemma {:induction false} InsertAllAt(side: Side, v: seq<OrderbookLevel>, exchange: string, p: real)
    ensures var r := InsertAll(side, v, exchange); var j := LastAt(v, p);
      && (j >= 0 ==> p in r && r[p] == GetLevel(v[j], exchange))
      && (j < 0 ==> (p in r <==> p in side) && (p in side ==> r[p] == side[p]))
  {
    if v != [] {
      var init := v[..|v| - 1];
      InsertAllAt(side, init, exchange, p);
      if GetPrice(v[|v| - 1]) != p {
        assert LastAt(v, p) == LastAt(init, p);
        var j := LastAt(v, p);
        if j >= 0 {
          assert init[j] == v[j];
        }
      }
    }
  }

  /** Every level an insert loop stores carries its own price, so keys and prices agree. */
  lemma {:induction false} InsertAllPricesMatchKeys(side: Side, v: seq<OrderbookLevel>, exchange: string)
    requires PricesMatchKeys(side)
    ensures PricesMatchKeys(InsertAll(side, v, exchange))
  {
    if v != [] {
      InsertAllPricesMatchKeys(side, v[..|v| - 1], exchange);
    }
  }

  /**
   * The insert loops of the collectors: `for l in v { side.insert(l.get_price(), l.get_level(exchange)) }`.
   */
  method InsertLevels(side: Side, v: seq<OrderbookLevel>, exchange: string) returns (r: Side)
    ensures r == InsertAll(side, v, exchange)
  {
    r := side;
    for i := 0 to |v|
      invariant r == InsertAll(side, v[..i], exchange)
    {
      assert v[..i + 1][..i] == v[..i];
      r := r[GetPrice(v[i]) := GetLevel(v[i], exchange)];
    }
    assert v[..|v|] == v;
  }

  /** A book built from scratch by the insert loops: empty sides, then every message level. */
  function FreshBook(bids: seq<OrderbookLevel>, asks: seq<OrderbookLevel>, exchange: string): Orderbook {
    Orderbook(InsertAll(map[], bids, exchange), InsertAll(map[], asks, exchange))
  }

  /**
   * A fresh book holds exactly the prices of the message, each with the level of the last entry
   * at that price; nothing else survives.
   */
  lemma FreshBookAt(bids: seq<OrderbookLevel>, asks: seq<OrderbookLevel>, exchange: string, p: real)
    ensures var r := FreshBook(bids, asks, exchange);
      && (p in r.bids <==> LastAt(bids, p) >= 0)
      && (p in r.bids ==> r.bids[p] == GetLevel(bids[LastAt(bids, p)], exchange))
      && (p in r.asks <==> LastAt(asks, p) >= 0)
      && (p in r.asks ==> r.asks[p] == GetLevel(asks[LastAt(asks, p)], exchange))
  {
    InsertAllAt(map[], bids, exchange, p);
    InsertAllAt(map[], asks, exchange, p);
  }

  /** A fresh book stores every level under its own price. */
  lemma FreshBookPricesMatchKeys(bids: seq<OrderbookLevel>, asks: seq<OrderbookLevel>, exchange: string)
    ensures var r := FreshBook(bids, asks, exchange); PricesMatchKeys(r.bids) && PricesMatchKeys(r.asks)
  {
    InsertAllPricesMatchKeys(map[], bids, exchange);
    InsertAllPricesMatchKeys(map[], asks, exchange);
  }

  /** The two insert loops over a new book. */
  method BuildFreshBook(bids: seq<OrderbookLevel>, asks: seq<OrderbookLevel>, exchange: string) returns (r: Orderbook)
    ensures r == FreshBook(bids, asks, exchange)
  {
    var b := InsertLevels(map[], bids, exchange);
    var a := InsertLevels(map[], asks, exchange);
    r := Orderbook(b, a);
  }

  /**
   * One item of an exchange's websocket stream: a transport error, a frame that is not text, or
   * a text frame together with what decoding it as the expected message yields.
   */
  datatype Frame<T> = TransportError | NotText | Text(decoded: Option<T>)
}
