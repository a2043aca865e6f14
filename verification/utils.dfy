/**
 * The book helpers of obagg/src/utils.rs: the composite tie-break key `map_key` and the delta
 * application `handle_update_message`, which upserts or deletes the levels of one side and prunes
 * the levels of the other side that a positive update crosses.
 */
module Utils {
  import opened Ordered
  import opened Definitions

  /** `hash_key_offset()`: the weight of the price in a composite key. */
  function HashKeyOffset(): (r: real)
    ensures r == Pow10(16)
  {
    Pow10Sixteen();
    10000000000000000.0
  }

  /** 10 raised to `n`. */
  function Pow10(n: nat): real {
    if n == 0 then 1.0 else 10.0 * Pow10(n - 1)
  }

  lemma Pow10Sixteen()
    ensures Pow10(16) == 10000000000000000.0
  {
    assert Pow10(4) == 10000.0;
    assert Pow10(8) == 100000000.0;
    assert Pow10(12) == 1000000000000.0;
  }

  /** Whether `map_key` adds the amount to the scaled price (otherwise it subtracts it). */
  predicate AddsAmount(identicalLevelOrder: bool, isBids: bool) {
    (isBids && identicalLevelOrder) || (!isBids && !identicalLevelOrder)
  }

  function Abs(x: real): real {
    if x < 0.0 then -x else x
  }

  /**
   * `map_key`: re-keys a level by `price * 10^16 ± amount`, so that levels of equal price from
   * different exchanges get distinct keys ordered by amount.
   */
  function MapKey(k: (real, Level), identicalLevelOrder: bool, isBids: bool): (r: (real, Level))
    ensures r.1 == k.1
    ensures Abs(r.0 - k.0 * HashKeyOffset()) == Abs(k.1.amount)
    ensures isBids && identicalLevelOrder ==> r.0 == k.0 * HashKeyOffset() + k.1.amount
    ensures isBids && !identicalLevelOrder ==> r.0 == k.0 * HashKeyOffset() - k.1.amount
    ensures !isBids && identicalLevelOrder ==> r.0 == k.0 * HashKeyOffset() - k.1.amount
    ensures !isBids && !identicalLevelOrder ==> r.0 == k.0 * HashKeyOffset() + k.1.amount
  {
    if AddsAmount(identicalLevelOrder, isBids) then
      (k.0 * HashKeyOffset() + k.1.amount, k.1)
    else
      (k.0 * HashKeyOffset() - k.1.amount, k.1)
  }

  /** For one setting of the flag, bids and asks take opposite branches. */
  lemma MapKeySidesOpposite(k: (real, Level), identicalLevelOrder: bool)
    ensures AddsAmount(identicalLevelOrder, true) != AddsAmount(identicalLevelOrder, false)
    ensures MapKey(k, identicalLevelOrder, true).0 + MapKey(k, identicalLevelOrder, false).0
      == 2.0 * k.0 * HashKeyOffset()
  {
  }

  /**
   * At equal price the `+` branch orders keys by ascending amount and the `-` branch by
   * descending amount.
   */
  lemma MapKeyTieOrder(p: real, l1: Level, l2: Level, identicalLevelOrder: bool, isBids: bool)
    ensures var a := MapKey((p, l1), identicalLevelOrder, isBids).0;
            var b := MapKey((p, l2), identicalLevelOrder, isBids).0;
            && (AddsAmount(identicalLevelOrder, isBids) ==> (a < b <==> l1.amount < l2.amount))
            && (!AddsAmount(identicalLevelOrder, isBids) ==> (a < b <==> l1.amount > l2.amount))
  {
  }

  /** A price gap larger than the amounts involved is never overturned by the amount term. */
  lemma MapKeyKeepsPriceOrder(k1: (real, Level), k2: (real, Level), identicalLevelOrder: bool, isBids: bool)
    requires k1.0 < k2.0
    requires (k2.0 - k1.0) * HashKeyOffset() > Abs(k1.1.amount) + Abs(k2.1.amount)
    ensures MapKey(k1, identicalLevelOrder, isBids).0 < MapKey(k2, identicalLevelOrder, isBids).0
  {
  }

  /** The first of two distinct keys in ascending order is the smaller one. */
  lemma FirstOfTwo(a: real, b: real)
    requires a < b
    ensures Ascending({a, b})[0] == a
  {
    var s := Ascending({a, b});
    assert a in s;
    var i :| 0 <= i < |s| && s[i] == a;
    if i != 0 {
      AscendingIndexOrder(s, 0, i);
      assert false;
    }
  }

  /**
   * The unit test of `map_key`: with the flag set, the binance level (amount 10.10) comes first on
   * both re-keyed sides.
   */
  lemma MapKeyTestOrder()
    ensures var bb := Level(100.222, 10.10, "binance");
            var sb := Level(100.222, 20.20, "bitstamp");
            var ba := Level(100.333, 10.10, "binance");
            var sa := Level(100.333, 20.20, "bitstamp");
            var kb1 := MapKey((100.222, bb), true, true); var kb2 := MapKey((100.333, sb), true, true);
            var ka1 := MapKey((100.222, ba), true, false); var ka2 := MapKey((100.333, sa), true, false);
            var bids := map[kb1.0 := kb1.1, kb2.0 := kb2.1];
            var asks := map[ka1.0 := ka1.1, ka2.0 := ka2.1];
            && bids[Ascending(bids.Keys)[0]].exchange == "binance"
            && asks[Ascending(asks.Keys)[0]].exchange == "binance"
            && bids[Ascending(bids.Keys)[0]].amount == 10.10
            && asks[Ascending(asks.Keys)[0]].amount == 10.10
  {
    var bb := Level(100.222, 10.10, "binance");
    var sb := Level(100.222, 20.20, "bitstamp");
    var ba := Level(100.333, 10.10, "binance");
    var sa := Level(100.333, 20.20, "bitstamp");
    var kb1 := MapKey((100.222, bb), true, true); var kb2 := MapKey((100.333, sb), true, true);
    var ka1 := MapKey((100.222, ba), true, false); var ka2 := MapKey((100.333, sa), true, false);
    var bids := map[kb1.0 := kb1.1, kb2.0 := kb2.1];
    var asks := map[ka1.0 := ka1.1, ka2.0 := ka2.1];
    assert bids.Keys == {kb1.0, kb2.0};
    assert asks.Keys == {ka1.0, ka2.0};
    FirstOfTwo(kb1.0, kb2.0);
    FirstOfTwo(ka1.0, ka2.0);
  }

  /** Whether a resting opposite-side key `k` is crossed by an update priced `key`. */
  predicate Crosses(k: real, key: real, isBids: bool) {
    if isBids then k <= key else k >= key
  }

  /** Strictly ordered in scan direction: ascending asks for a bid update, descending bids otherwise. */
  predicate ScanOrdered(order: seq<real>, isBids: bool) {
    if isBids then StrictlyAscending(order) else StrictlyDescending(order)
  }

  /** The scan order of the opposite side's clone: `iter()` over asks, `iter().rev()` over bids. */
  function CloneOrder(other: Side, isBids: bool): (r: seq<real>)
    ensures ScanOrdered(r, isBids)
    ensures forall k :: k in other <==> k in r
  {
    if isBids then Ascending(other.Keys) else Descending(other.Keys)
  }

  /** Once a key stops the scan, every later key in scan order would stop it too. */
  lemma PastTheBreak(order: seq<real>, i: int, j: int, key: real, isBids: bool)
    requires ScanOrdered(order, isBids) && 0 <= i <= j < |order|
    requires !Crosses(order[i], key, isBids)
    ensures !Crosses(order[j], key, isBids)
  {
    if i < j {
      assert isBids ==> order[i] < order[j];
      assert !isBids ==> order[i] > order[j];
    }
  }

  /**
   * How the opposite-side scan treats the key that stops it. The source takes that key out of the
   * shared iterator before testing it, so no later update of the same call sees it again
   * (`ConsumeOnBreak`); `PeekOnBreak` leaves it in place.
   */
  datatype BreakStep = ConsumeOnBreak | PeekOnBreak

  /**
   * The inner `while let` over the clone's iterator, from position `pos`, for an update priced
   * `key`: remove every crossed key until the first one that is not crossed. Returns the opposite
   * side and the iterator's new position.
   */
  function Scan(other: Side, order: seq<real>, pos: nat, key: real, isBids: bool, mode: BreakStep): (r: (Side, nat))
    requires pos <= |order|
    ensures pos <= r.1 <= |order|
    ensures IsSubmap(r.0, other)
    ensures forall k :: k in other && k !in r.0 ==> Crosses(k, key, isBids)
    decreases |order| - pos
  {
    if pos == |order| then (other, pos)
    else if Crosses(order[pos], key, isBids) then Scan(other - {order[pos]}, order, pos + 1, key, isBids, mode)
    else if mode == ConsumeOnBreak then (other, pos + 1)
    else (other, pos)
  }

  /** Whatever the break step, a scan removes every crossed key from its position onwards. */
  lemma {:induction false} ScanClearsCrossing(other: Side, order: seq<real>, pos: nat, key: real, isBids: bool, mode: BreakStep)
    requires ScanOrdered(order, isBids) && pos <= |order|
    ensures forall j :: pos <= j < |order| && Crosses(order[j], key, isBids) ==>
      order[j] !in Scan(other, order, pos, key, isBids, mode).0
    decreases |order| - pos
  {
    if pos < |order| {
      if Crosses(order[pos], key, isBids) {
        ScanClearsCrossing(other - {order[pos]}, order, pos + 1, key, isBids, mode);
      } else {
        forall j | pos <= j < |order| ensures !Crosses(order[j], key, isBids) {
          PastTheBreak(order, pos, j, key, isBids);
        }
      }
    }
  }

  /**
   * A peeking scan over a side that holds exactly the keys from `pos` onwards leaves a side that
   * holds exactly the keys from the new position onwards, and the key there is not crossed.
   */
  lemma {:induction false} PeekScanExact(other: Side, order: seq<real>, pos: nat, key: real, isBids: bool)
    requires ScanOrdered(order, isBids) && pos <= |order|
    requires forall k :: k in other <==> k in order[pos..]
    ensures var r := Scan(other, order, pos, key, isBids, PeekOnBreak);
      && (forall k :: k in r.0 <==> k in order[r.1..])
      && (r.1 < |order| ==> !Crosses(order[r.1], key, isBids))
    decreases |order| - pos
  {
    if pos < |order| && Crosses(order[pos], key, isBids) {
      var rest := other - {order[pos]};
      forall k ensures k in rest <==> k in order[pos + 1..] {
        if k in order[pos + 1..] {
          var j :| pos + 1 <= j < |order| && order[j] == k;
          assert isBids ==> order[pos] < order[j];
          assert !isBids ==> order[pos] > order[j];
        }
        if k in other && k != order[pos] {
          var j :| pos <= j < |order| && order[j] == k;
          assert j != pos;
          assert order[pos + 1..][j - pos - 1] == k;
        }
      }
      PeekScanExact(rest, order, pos + 1, key, isBids);
    }
  }

  /** The state `handle_update_message` carries from one update to the next. */
  datatype ScanState = ScanState(side: Side, other: Side, pos: nat)

  /** `b.remove(&key)` followed, for a positive amount, by `b.insert(key, level)`. */
  function Upsert(side: Side, l: OrderbookLevel, exchange: string): (r: Side)
    ensures GetAmount(l) > 0.0 ==> GetPrice(l) in r && r[GetPrice(l)] == GetLevel(l, exchange)
    ensures GetAmount(l) <= 0.0 ==> GetPrice(l) !in r
    ensures forall p :: p != GetPrice(l) ==> (p in r <==> p in side) && (p in side ==> r[p] == side[p])
  {
    var s := side - {GetPrice(l)};
    if GetAmount(l) > 0.0 then s[GetPrice(l) := GetLevel(l, exchange)] else s
  }

  /** One turn of the outer loop: upsert the level, then scan the opposite side if it is positive. */
  function ApplyLevel(st: ScanState, l: OrderbookLevel, order: seq<real>, isBids: bool, exchange: string, mode: BreakStep): (r: ScanState)
    requires st.pos <= |order|
    ensures r.pos <= |order|
  {
    if GetAmount(l) > 0.0 then
      var s := Scan(st.other, order, st.pos, GetPrice(l), isBids, mode);
      ScanState(Upsert(st.side, l, exchange), s.0, s.1)
    else
      ScanState(Upsert(st.side, l, exchange), st.other, st.pos)
  }

  /** The outer loop over the updates of `v`, in order. */
  function UpdateLoop(v: seq<OrderbookLevel>, st: ScanState, order: seq<real>, isBids: bool, exchange: string, mode: BreakStep): (r: ScanState)
    requires st.pos <= |order|
    ensures r.pos <= |order|
    decreases |v|
  {
    if v == [] then st
    else ApplyLevel(UpdateLoop(v[..|v| - 1], st, order, isBids, exchange, mode), v[|v| - 1], order, isBids, exchange, mode)
  }

  /** `v.iter().take(d)`. */
  function Take(v: seq<OrderbookLevel>, d: nat): seq<OrderbookLevel> {
    if d < |v| then v[..d] else v
  }

  /** The side a call updates: the bids for a bid update, the asks otherwise. */
  function UpdatedSide(ob: Orderbook, isBids: bool): Side {
    if isBids then ob.bids else ob.asks
  }

  /** The side a call prunes: the asks for a bid update, the bids otherwise. */
  function OppositeSide(ob: Orderbook, isBids: bool): Side {
    if isBids then ob.asks else ob.bids
  }

  /** What `handle_update_message(v, ob, d, is_bids, exchange)` leaves in `ob`. */
  function HandleSpec(v: seq<OrderbookLevel>, ob: Orderbook, d: nat, isBids: bool, exchange: string, mode: BreakStep): Orderbook {
    var other := OppositeSide(ob, isBids);
    var st := UpdateLoop(Take(v, d), ScanState(UpdatedSide(ob, isBids), other, 0), CloneOrder(other, isBids), isBids, exchange, mode);
    if isBids then Orderbook(st.side, st.other) else Orderbook(st.other, st.side)
  }

  /** The updated side on its own: each update in turn removes its price and re-inserts a positive level. */
  function UpsertAll(side: Side, v: seq<OrderbookLevel>, exchange: string): Side
    decreases |v|
  {
    if v == [] then side else Upsert(UpsertAll(side, v[..|v| - 1], exchange), v[|v| - 1], exchange)
  }

  /**
   * What the upserts store under `p`: decided by the last update priced `p` (its level when positive,
   * nothing otherwise), or the side's old entry when no update has that price.
   */
  lemma {:induction false} UpsertAllAt(side: Side, v: seq<OrderbookLevel>, exchange: string, p: real)
    ensures var r := UpsertAll(side, v, exchange); var j := LastAt(v, p);
      && (j >= 0 && GetAmount(v[j]) > 0.0 ==> p in r && r[p] == GetLevel(v[j], exchange))
      && (j >= 0 && GetAmount(v[j]) <= 0.0 ==> p !in r)
      && (j < 0 ==> (p in r <==> p in side) && (p in side ==> r[p] == side[p]))
  {
    if v != [] {
      var init := v[..|v| - 1];
      UpsertAllAt(side, init, exchange, p);
      if GetPrice(v[|v| - 1]) != p {
        assert LastAt(v, p) == LastAt(init, p);
        var j := LastAt(v, p);
        if j >= 0 {
          assert init[j] == v[j];
        }
      }
    }
  }

  /** The upserts keep keys and prices in agreement and store no non-positive amount. */
  lemma {:induction false} UpsertAllKeepsLevels(side: Side, v: seq<OrderbookLevel>, exchange: string)
    requires PricesMatchKeys(side) && PositiveAmounts(side)
    ensures var r := UpsertAll(side, v, exchange); PricesMatchKeys(r) && PositiveAmounts(r)
  {
    if v != [] {
      UpsertAllKeepsLevels(side, v[..|v| - 1], exchange);
    }
  }

  /** The updated side evolves independently of the scan. */
  lemma {:induction false} UpdateLoopSide(v: seq<OrderbookLevel>, st: ScanState, order: seq<real>, isBids: bool, exchange: string, mode: BreakStep)
    requires st.pos <= |order|
    ensures UpdateLoop(v, st, order, isBids, exchange, mode).side == UpsertAll(st.side, v, exchange)
    decreases |v|
  {
    if v != [] {
      UpdateLoopSide(v[..|v| - 1], st, order, isBids, exchange, mode);
    }
  }

  /**
   * The opposite side only loses entries; each lost key is crossed by some positive update, and
   * without positive updates nothing changes.
   */
  lemma {:induction false} UpdateLoopOther(v: seq<OrderbookLevel>, st: ScanState, order: seq<real>, isBids: bool, exchange: string, mode: BreakStep)
    requires st.pos <= |order|
    ensures var r := UpdateLoop(v, st, order, isBids, exchange, mode);
      && IsSubmap(r.other, st.other)
      && (forall k :: k in st.other && k !in r.other ==>
            exists j :: 0 <= j < |v| && GetAmount(v[j]) > 0.0 && Crosses(k, GetPrice(v[j]), isBids))
      && ((forall j :: 0 <= j < |v| ==> GetAmount(v[j]) <= 0.0) ==> r.other == st.other && r.pos == st.pos)
    decreases |v|
  {
    if v != [] {
      var init := v[..|v| - 1];
      var l := v[|v| - 1];
      UpdateLoopOther(init, st, order, isBids, exchange, mode);
      var mid := UpdateLoop(init, st, order, isBids, exchange, mode);
      var r := ApplyLevel(mid, l, order, isBids, exchange, mode);
      forall k | k in st.other && k !in r.other
        ensures exists j :: 0 <= j < |v| && GetAmount(v[j]) > 0.0 && Crosses(k, GetPrice(v[j]), isBids)
      {
        if k in mid.other {
          assert GetAmount(l) > 0.0 && Crosses(k, GetPrice(l), isBids);
        } else {
          var j :| 0 <= j < |init| && GetAmount(init[j]) > 0.0 && Crosses(k, GetPrice(init[j]), isBids);
          assert v[j] == init[j];
        }
      }
      if forall j :: 0 <= j < |v| ==> GetAmount(v[j]) <= 0.0 {
        forall j | 0 <= j < |init| ensures GetAmount(init[j]) <= 0.0 {
          assert init[j] == v[j];
        }
      }
    }
  }

  /** The loop over `a + b` is the loop over `a` followed by the loop over `b`. */
  lemma {:induction false} UpdateLoopAppend(a: seq<OrderbookLevel>, b: seq<OrderbookLevel>, st: ScanState, order: seq<real>, isBids: bool, exchange: string, mode: BreakStep)
    requires st.pos <= |order|
    ensures UpdateLoop(a + b, st, order, isBids, exchange, mode)
      == UpdateLoop(b, UpdateLoop(a, st, order, isBids, exchange, mode), order, isBids, exchange, mode)
    decreases |b|
  {
    if b == [] {
      assert a + b == a;
    } else {
      assert (a + b)[..|a + b| - 1] == a + b[..|b| - 1];
      UpdateLoopAppend(a, b[..|b| - 1], st, order, isBids, exchange, mode);
    }
  }

  /** The updated side ends up as the upserts of the first `d` updates make it. */
  lemma HandleUpdatedSide(v: seq<OrderbookLevel>, ob: Orderbook, d: nat, isBids: bool, exchange: string, mode: BreakStep)
    ensures UpdatedSide(HandleSpec(v, ob, d, isBids, exchange, mode), isBids)
      == UpsertAll(UpdatedSide(ob, isBids), Take(v, d), exchange)
  {
    var other := OppositeSide(ob, isBids);
    UpdateLoopSide(Take(v, d), ScanState(UpdatedSide(ob, isBids), other, 0), CloneOrder(other, isBids), isBids, exchange, mode);
  }

  /**
   * The opposite side only loses entries, each lost key is crossed by a positive update among the
   * first `d`, and without a positive update it is unchanged.
   */
  lemma HandleOppositeSide(v: seq<OrderbookLevel>, ob: Orderbook, d: nat, isBids: bool, exchange: string, mode: BreakStep)
    ensures var before := OppositeSide(ob, isBids);
            var after := OppositeSide(HandleSpec(v, ob, d, isBids, exchange, mode), isBids);
            var w := Take(v, d);
      && IsSubmap(after, before)
      && (forall k :: k in before && k !in after ==>
            exists j :: 0 <= j < |w| && GetAmount(w[j]) > 0.0 && Crosses(k, GetPrice(w[j]), isBids))
      && ((forall j :: 0 <= j < |w| ==> GetAmount(w[j]) <= 0.0) ==> after == before)
  {
    var other := OppositeSide(ob, isBids);
    UpdateLoopOther(Take(v, d), ScanState(UpdatedSide(ob, isBids), other, 0), CloneOrder(other, isBids), isBids, exchange, mode);
  }

  /** Updates past the first `d` have no effect. */
  lemma HandleOnlyFirstD(v: seq<OrderbookLevel>, w: seq<OrderbookLevel>, ob: Orderbook, d: nat, isBids: bool, exchange: string, mode: BreakStep)
    requires d <= |v|
    ensures HandleSpec(v + w, ob, d, isBids, exchange, mode) == HandleSpec(v, ob, d, isBids, exchange, mode)
  {
    assert Take(v + w, d) == Take(v, d);
  }

  /** The loop over `w` is the loop up to position `j`, one turn for `w[j]`, then the loop over the rest. */
  lemma UpdateLoopSplitAt(w: seq<OrderbookLevel>, j: nat, st: ScanState, order: seq<real>, isBids: bool, exchange: string, mode: BreakStep)
    requires j < |w| && st.pos <= |order|
    ensures var mid := ApplyLevel(UpdateLoop(w[..j], st, order, isBids, exchange, mode), w[j], order, isBids, exchange, mode);
      UpdateLoop(w, st, order, isBids, exchange, mode) == UpdateLoop(w[j + 1..], mid, order, isBids, exchange, mode)
  {
    assert w == w[..j + 1] + w[j + 1..];
    assert w[..j + 1][..j] == w[..j];
    UpdateLoopAppend(w[..j + 1], w[j + 1..], st, order, isBids, exchange, mode);
  }

  lemma UpdateLoopFirstPositiveClears(w: seq<OrderbookLevel>, st: ScanState, order: seq<real>, isBids: bool, exchange: string, mode: BreakStep, j: nat)
    requires ScanOrdered(order, isBids) && st.pos == 0
    requires forall k :: k in st.other ==> k in order
    requires j < |w| && GetAmount(w[j]) > 0.0
    requires forall i :: 0 <= i < j ==> GetAmount(w[i]) <= 0.0
    ensures forall k :: k in st.other && Crosses(k, GetPrice(w[j]), isBids) ==>
      k !in UpdateLoop(w, st, order, isBids, exchange, mode).other
  {
    UpdateLoopSplitAt(w, j, st, order, isBids, exchange, mode);
    var st1 := UpdateLoop(w[..j], st, order, isBids, exchange, mode);
    UpdateLoopOther(w[..j], st, order, isBids, exchange, mode);
    assert st1.other == st.other && st1.pos == 0;
    var st2 := ApplyLevel(st1, w[j], order, isBids, exchange, mode);
    ScanClearsCrossing(st.other, order, 0, GetPrice(w[j]), isBids, mode);
    UpdateLoopOther(w[j + 1..], st2, order, isBids, exchange, mode);
    forall k | k in st.other && Crosses(k, GetPrice(w[j]), isBids)
      ensures k !in st2.other
    {
      var i :| 0 <= i < |order| && order[i] == k;
    }
  }

  /**
   * The first positive update of a call, whatever the break step, removes every opposite-side key
   * that existed before the call and that it crosses.
   */
  lemma HandleFirstPositiveClears(v: seq<OrderbookLevel>, ob: Orderbook, d: nat, isBids: bool, exchange: string, mode: BreakStep, j: nat)
    requires j < d && j < |v|
    requires GetAmount(v[j]) > 0.0
    requires forall i :: 0 <= i < j ==> GetAmount(v[i]) <= 0.0
    ensures forall k :: k in OppositeSide(ob, isBids) && Crosses(k, GetPrice(v[j]), isBids) ==>
      k !in OppositeSide(HandleSpec(v, ob, d, isBids, exchange, mode), isBids)
  {
    var w := Take(v, d);
    var other := OppositeSide(ob, isBids);
    assert forall i :: 0 <= i <= j ==> w[i] == v[i];
    UpdateLoopFirstPositiveClears(w, ScanState(UpdatedSide(ob, isBids), other, 0), CloneOrder(other, isBids), isBids, exchange, mode, j);
  }

  /** Every key of `side` lies strictly on its own side of every key of `other`. */
  ghost predicate Separated(side: Side, other: Side, isBids: bool) {
    forall s, k :: s in side && k in other ==> if isBids then s < k else k < s
  }

  /** What a peeking call keeps true between updates. */
  ghost predicate PeekInv(st: ScanState, order: seq<real>, isBids: bool) {
    && st.pos <= |order|
    && (forall k :: k in st.other <==> k in order[st.pos..])
    && Separated(st.side, st.other, isBids)
  }

  lemma ApplyLevelKeepsPeekInv(st: ScanState, l: OrderbookLevel, order: seq<real>, isBids: bool, exchange: string)
    requires ScanOrdered(order, isBids) && PeekInv(st, order, isBids)
    ensures PeekInv(ApplyLevel(st, l, order, isBids, exchange, PeekOnBreak), order, isBids)
  {
    if GetAmount(l) > 0.0 {
      var key := GetPrice(l);
      var s := Scan(st.other, order, st.pos, key, isBids, PeekOnBreak);
      PeekScanExact(st.other, order, st.pos, key, isBids);
      forall k | k in s.0 ensures !Crosses(k, key, isBids) {
        var j :| s.1 <= j < |order| && order[j] == k;
        PastTheBreak(order, s.1, j, key, isBids);
      }
    }
  }

  lemma {:induction false} UpdateLoopKeepsPeekInv(v: seq<OrderbookLevel>, st: ScanState, order: seq<real>, isBids: bool, exchange: string)
    requires ScanOrdered(order, isBids) && PeekInv(st, order, isBids)
    ensures PeekInv(UpdateLoop(v, st, order, isBids, exchange, PeekOnBreak), order, isBids)
    decreases |v|
  {
    if v != [] {
      UpdateLoopKeepsPeekInv(v[..|v| - 1], st, order, isBids, exchange);
      ApplyLevelKeepsPeekInv(UpdateLoop(v[..|v| - 1], st, order, isBids, exchange, PeekOnBreak), v[|v| - 1], order, isBids, exchange);
    }
  }

  /** A book is uncrossed exactly when its updated side and its opposite side are separated. */
  lemma SeparatedIffUncrossed(ob: Orderbook, isBids: bool)
    ensures Separated(UpdatedSide(ob, isBids), OppositeSide(ob, isBids), isBids) <==> Uncrossed(ob)
  {
  }

  /** Before the first update, the untouched book satisfies the peeking invariant. */
  lemma InitialPeekInv(ob: Orderbook, isBids: bool)
    requires Uncrossed(ob)
    ensures var other := OppositeSide(ob, isBids);
      PeekInv(ScanState(UpdatedSide(ob, isBids), other, 0), CloneOrder(other, isBids), isBids)
  {
    var order := CloneOrder(OppositeSide(ob, isBids), isBids);
    assert order[0..] == order;
    SeparatedIffUncrossed(ob, isBids);
  }

  /** With a peeking scan, a book with every bid below every ask stays that way. */
  lemma CorrectedKeepsBookUncrossed(v: seq<OrderbookLevel>, ob: Orderbook, d: nat, isBids: bool, exchange: string)
    requires Uncrossed(ob)
    ensures Uncrossed(HandleSpec(v, ob, d, isBids, exchange, PeekOnBreak))
  {
    var other := OppositeSide(ob, isBids);
    var order := CloneOrder(other, isBids);
    var st0 := ScanState(UpdatedSide(ob, isBids), other, 0);
    InitialPeekInv(ob, isBids);
    UpdateLoopKeepsPeekInv(Take(v, d), st0, order, isBids, exchange);
    var st := UpdateLoop(Take(v, d), st0, order, isBids, exchange, PeekOnBreak);
    var r := HandleSpec(v, ob, d, isBids, exchange, PeekOnBreak);
    assert UpdatedSide(r, isBids) == st.side && OppositeSide(r, isBids) == st.other;
    SeparatedIffUncrossed(r, isBids);
  }

  /** Whatever the scan does at its stop, levels stay keyed by their prices with positive amounts. */
  lemma HandleKeepsLevels(v: seq<OrderbookLevel>, ob: Orderbook, d: nat, isBids: bool, exchange: string, mode: BreakStep)
    requires LevelsValid(ob)
    ensures LevelsValid(HandleSpec(v, ob, d, isBids, exchange, mode))
  {
    HandleUpdatedSide(v, ob, d, isBids, exchange, mode);
    HandleOppositeSide(v, ob, d, isBids, exchange, mode);
    UpsertAllKeepsLevels(UpdatedSide(ob, isBids), Take(v, d), exchange);
  }

  /** With a peeking scan, a well-formed book stays well-formed. */
  lemma CorrectedKeepsWellFormed(v: seq<OrderbookLevel>, ob: Orderbook, d: nat, isBids: bool, exchange: string)
    requires WellFormed(ob)
    ensures WellFormed(HandleSpec(v, ob, d, isBids, exchange, PeekOnBreak))
  {
    HandleKeepsLevels(v, ob, d, isBids, exchange, PeekOnBreak);
    CorrectedKeepsBookUncrossed(v, ob, d, isBids, exchange);
  }

  /**
   * As written, a scan that stops consumes the stopping key: with asks {10} and bid updates 9.5
   * then 10, the first scan uses up ask 10 without removing it and the second never sees it, so
   * price 10 ends up on both sides.
   */
  lemma AsWrittenLeavesCrossedLevel(d: nat)
    requires d >= 2
    ensures var ob := Orderbook(map[9.0 := Level(9.0, 1.0, "binance")], map[10.0 := Level(10.0, 1.0, "binance")]);
            var v := [OrderbookLevel((9.5, 1.0)), OrderbookLevel((10.0, 1.0))];
            var r := HandleSpec(v, ob, d, true, "binance", ConsumeOnBreak);
      && Uncrossed(ob)
      && r.asks == ob.asks
      && 10.0 in r.bids && 10.0 in r.asks && !Uncrossed(r)
  {
    var ob := Orderbook(map[9.0 := Level(9.0, 1.0, "binance")], map[10.0 := Level(10.0, 1.0, "binance")]);
    var v := [OrderbookLevel((9.5, 1.0)), OrderbookLevel((10.0, 1.0))];
    var order := CloneOrder(ob.asks, true);
    assert ob.asks.Keys == {10.0};
    assert order == [10.0] by {
      assert 10.0 in order;
    }
    var st0 := ScanState(ob.bids, ob.asks, 0);
    assert Take(v, d) == v;
    assert v[..1] == [v[0]] && [v[0]][..0] == [];
    var st1 := ApplyLevel(st0, v[0], order, true, "binance", ConsumeOnBreak);
    assert UpdateLoop([v[0]], st0, order, true, "binance", ConsumeOnBreak) == st1;
    assert st1.other == ob.asks && st1.pos == 1;
    var st2 := ApplyLevel(st1, v[1], order, true, "binance", ConsumeOnBreak);
    assert UpdateLoop(v, st0, order, true, "binance", ConsumeOnBreak) == st2;
    assert st2.other == ob.asks && 10.0 in st2.side;
  }

  /**
   * The inner `while let` of `handle_update_message`: walks the clone's iterator from `pos`,
   * removing crossed keys from `other` until a key that is not crossed stops it.
   */
  method ScanClone(other: Side, order: seq<real>, pos: nat, key: real, isBids: bool, mode: BreakStep)
    returns (other': Side, pos': nat)
    requires pos <= |order|
    ensures (other', pos') == Scan(other, order, pos, key, isBids, mode)
  {
    other', pos' := other, pos;
    while pos' < |order|
      invariant pos' <= |order|
      invariant Scan(other', order, pos', key, isBids, mode) == Scan(other, order, pos, key, isBids, mode)
      decreases |order| - pos'
    {
      var k := order[pos'];
      if Crosses(k, key, isBids) {
        other' := other' - {k};
        pos' := pos' + 1;
      } else {
        if mode == ConsumeOnBreak {
          pos' := pos' + 1;
        }
        break;
      }
    }
  }

  /** One turn of the outer `while let`: remove the price, re-insert a positive level and scan. */
  method ApplyUpdate(side: Side, other: Side, pos: nat, l: OrderbookLevel, order: seq<real>, isBids: bool, exchange: string, mode: BreakStep)
    returns (side': Side, other': Side, pos': nat)
    requires pos <= |order|
    ensures ScanState(side', other', pos') == ApplyLevel(ScanState(side, other, pos), l, order, isBids, exchange, mode)
  {
    side', other', pos' := side - {GetPrice(l)}, other, pos;
    if GetAmount(l) > 0.0 {
      side' := side'[GetPrice(l) := GetLevel(l, exchange)];
      other', pos' := ScanClone(other, order, pos, GetPrice(l), isBids, mode);
    }
  }

  /**
   * `handle_update_message`: applies the first `d` updates of `v` to one side of `ob` and prunes the
   * crossed levels of the other side through one shared iterator over a clone of it. `mode`
   * chooses the break step: `ConsumeOnBreak` is the code as written, `PeekOnBreak` the corrected scan.
   */
  method HandleUpdateMessage(v: seq<OrderbookLevel>, ob: Orderbook, d: nat, isBids: bool, exchange: string, mode: BreakStep)
    returns (r: Orderbook)
    ensures r == HandleSpec(v, ob, d, isBids, exchange, mode)
  {
    var n := if d < |v| then d else |v|;
    var side := UpdatedSide(ob, isBids);
    var other := OppositeSide(ob, isBids);
    var order := CloneOrder(other, isBids);
    ghost var st0 := ScanState(side, other, 0);
    var pos: nat := 0;
    for i := 0 to n
      invariant pos <= |order|
      invariant ScanState(side, other, pos) == UpdateLoop(v[..i], st0, order, isBids, exchange, mode)
    {
      assert v[..i + 1][..i] == v[..i];
      side, other, pos := ApplyUpdate(side, other, pos, v[i], order, isBids, exchange, mode);
    }
    assert v[..n] == Take(v, d);
    r := if isBids then Orderbook(side, other) else Orderbook(other, side);
  }
}
