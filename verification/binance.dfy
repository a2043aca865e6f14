/**
 * The Binance collector of obagg/src/binance.rs. `consume_orderbooks` keeps a local book in step
 * with Binance's diff-depth stream: a REST snapshot seeds the book and its `lastUpdateId`, each
 * delta carries the ids `U` (first) and `u` (last) of the updates it holds, and the collector
 * accepts, discards or resynchronises on each delta. The REST fetch is an input: the snapshot
 * (or the error) that fetching would return at that moment.
 */
module Binance {
  import opened Wrappers
  import opened Definitions
  import opened Utils

  const Exchange: string := "binance"

  /** The REST depth snapshot, and each message of the partial-depth stream. */
  datatype BinanceOrderbookMessage = BinanceOrderbookMessage(
    lastUpdateId: nat, bids: seq<OrderbookLevel>, asks: seq<OrderbookLevel>)

  /** A diff-depth delta: `U`, `u` and the absolute quantities of the changed levels. */
  datatype BinanceOrderbookUpdateMessage = BinanceOrderbookUpdateMessage(
    firstUpdateId: nat, lastUpdateId: nat, bids: seq<OrderbookLevel>, asks: seq<OrderbookLevel>)

  /** The four values `consume_orderbooks` keeps behind its mutexes. */
  datatype SyncState = SyncState(orderbook: Orderbook, lastUpdateId: nat, isFirst: bool, prevU: nat)

  /** The book `get_snapshot` rebuilds from a snapshot. */
  function SnapshotBook(m: BinanceOrderbookMessage): Orderbook {
    FreshBook(m.bids, m.asks, Exchange)
  }

  /**
   * A resynchronisation: on a fetched snapshot, its book and id replace the current ones and the
   * next delta is treated as the first; on a failed fetch nothing changes.
   */
  function ResyncState(s: SyncState, fetched: Result<BinanceOrderbookMessage, string>): SyncState {
    match fetched
    case Failure(_) => s
    case Success(m) => s.(orderbook := SnapshotBook(m), lastUpdateId := m.lastUpdateId, isFirst := true)
  }

  /** The first-delta condition `U <= lastUpdateId + 1 <= u`. */
  predicate BridgesSnapshot(s: SyncState, m: BinanceOrderbookUpdateMessage) {
    m.firstUpdateId <= s.lastUpdateId + 1 && m.lastUpdateId >= s.lastUpdateId + 1
  }

  /** Whether a decoded delta is applied: not stale, and in sequence or bridging the snapshot. */
  predicate Accepted(s: SyncState, m: BinanceOrderbookUpdateMessage) {
    && m.lastUpdateId > s.lastUpdateId
    && (s.isFirst ==> BridgesSnapshot(s, m))
    && (!s.isFirst ==> s.prevU + 1 == m.firstUpdateId)
  }

  /**
   * One item of the stream, as the closure in `consume_orderbooks` handles it: the new state and
   * the book sent downstream, if any.
   */
  function Step(s: SyncState, depth: nat, frame: Frame<BinanceOrderbookUpdateMessage>, fetched: Result<BinanceOrderbookMessage, string>,
                mode: BreakStep): (r: (SyncState, Option<Orderbooks>))
    requires depth > 0
    ensures r.1.None? ==> r.0 == s || r.0 == ResyncState(s, fetched)
    ensures r.1.Some? ==> && r.1.value.Binance? && !r.0.isFirst && r.0.lastUpdateId == s.lastUpdateId
                          && r.1.value.binance == Reduce(r.0.orderbook, depth)
  {
    match frame
    case TransportError => (s, None)
    case NotText => (ResyncState(s, fetched), None)
    case Text(None) => (s, None)
    case Text(Some(m)) =>
      if m.lastUpdateId <= s.lastUpdateId then (s, None)
      else if !s.isFirst && s.prevU + 1 != m.firstUpdateId then (ResyncState(s, fetched), None)
      else if s.isFirst && !BridgesSnapshot(s, m) then (ResyncState(s, fetched), None)
      else
        var withBids := HandleSpec(m.bids, s.orderbook, depth, true, Exchange, mode);
        var withAsks := HandleSpec(m.asks, withBids, depth, false, Exchange, mode);
        (SyncState(withAsks, s.lastUpdateId, false, m.lastUpdateId), Some(Binance(Reduce(withAsks, depth))))
  }

  /** A delta whose `u` is at most `lastUpdateId` is dropped: no state change, nothing sent. */
  lemma StaleDeltaDiscarded(s: SyncState, depth: nat, m: BinanceOrderbookUpdateMessage, fetched: Result<BinanceOrderbookMessage, string>, mode: BreakStep)
    requires depth > 0
    requires m.lastUpdateId <= s.lastUpdateId
    ensures Step(s, depth, Text(Some(m)), fetched, mode) == (s, None)
  {
  }

  /**
   * After the first delta, a delta whose `U` is not `prev_u + 1` is not applied: the snapshot
   * replaces the book and id and the collector waits for a first delta again.
   */
  lemma GapResyncs(s: SyncState, depth: nat, m: BinanceOrderbookUpdateMessage, fetched: Result<BinanceOrderbookMessage, string>, mode: BreakStep)
    requires depth > 0
    requires m.lastUpdateId > s.lastUpdateId && !s.isFirst && s.prevU + 1 != m.firstUpdateId
    ensures var r := Step(s, depth, Text(Some(m)), fetched, mode);
      && r.1 == None
      && (fetched.Success? ==>
            r.0 == SyncState(SnapshotBook(fetched.value), fetched.value.lastUpdateId, true, s.prevU))
      && (fetched.Failure? ==> r.0 == s)
  {
  }

  /** While waiting for the first delta, a fresh delta is applied exactly when `U <= lastUpdateId + 1 <= u`. */
  lemma FirstDeltaAcceptedIff(s: SyncState, depth: nat, m: BinanceOrderbookUpdateMessage, fetched: Result<BinanceOrderbookMessage, string>, mode: BreakStep)
    requires depth > 0
    requires s.isFirst && m.lastUpdateId > s.lastUpdateId
    ensures var r := Step(s, depth, Text(Some(m)), fetched, mode);
      && (r.1.Some? <==> m.firstUpdateId <= s.lastUpdateId + 1 <= m.lastUpdateId)
      && (r.1.None? ==> r.0 == ResyncState(s, fetched))
  {
  }

  /**
   * An accepted delta: the bids and then the asks of the delta go through the update handler with
   * the configured depth, `is_first` falls, `prev_u` becomes `u`, `lastUpdateId` stays, and exactly
   * the reduced new book is sent.
   */
  lemma AcceptedDeltaApplied(s: SyncState, depth: nat, m: BinanceOrderbookUpdateMessage, fetched: Result<BinanceOrderbookMessage, string>, mode: BreakStep)
    requires depth > 0
    requires Accepted(s, m)
    ensures var r := Step(s, depth, Text(Some(m)), fetched, mode);
      && !r.0.isFirst && r.0.prevU == m.lastUpdateId && r.0.lastUpdateId == s.lastUpdateId
      && r.0.orderbook == HandleSpec(m.asks, HandleSpec(m.bids, s.orderbook, depth, true, Exchange, mode), depth, false, Exchange, mode)
      && r.1 == Some(Binance(Reduce(r.0.orderbook, depth)))
  {
  }

  /** A book is sent exactly for an accepted delta. */
  lemma SentIffAccepted(s: SyncState, depth: nat, frame: Frame<BinanceOrderbookUpdateMessage>, fetched: Result<BinanceOrderbookMessage, string>, mode: BreakStep)
    requires depth > 0
    ensures Step(s, depth, frame, fetched, mode).1.Some? <==> frame.Text? && frame.decoded.Some? && Accepted(s, frame.decoded.value)
  {
  }

  /** `lastUpdateId` only ever takes the id of a fetched snapshot, never an id from a delta. */
  lemma LastUpdateIdFromSnapshotOnly(s: SyncState, depth: nat, frame: Frame<BinanceOrderbookUpdateMessage>, fetched: Result<BinanceOrderbookMessage, string>, mode: BreakStep)
    requires depth > 0
    ensures var r := Step(s, depth, frame, fetched, mode);
      r.0.lastUpdateId == s.lastUpdateId || (fetched.Success? && r.0.lastUpdateId == fetched.value.lastUpdateId)
  {
  }

  /** With a failed snapshot fetch, any item that sends nothing leaves the whole state unchanged. */
  lemma FailedFetchChangesNothing(s: SyncState, depth: nat, frame: Frame<BinanceOrderbookUpdateMessage>, fetched: Result<BinanceOrderbookMessage, string>, mode: BreakStep)
    requires depth > 0
    requires fetched.Failure?
    ensures var r := Step(s, depth, frame, fetched, mode); r.1.None? ==> r.0 == s
  {
  }

  /** A frame that is not text resynchronises and re-arms the first-delta check. */
  lemma NonTextResyncs(s: SyncState, depth: nat, m: BinanceOrderbookMessage, mode: BreakStep)
    requires depth > 0
    ensures Step(s, depth, NotText, Success(m), mode) == (SyncState(SnapshotBook(m), m.lastUpdateId, true, s.prevU), None)
  {
  }

  /** Feeding an accepted delta again (with `U <= u`) never applies it a second time. */
  lemma ReplayNotAppliedTwice(s: SyncState, depth: nat, m: BinanceOrderbookUpdateMessage,
                              fetched: Result<BinanceOrderbookMessage, string>, fetched': Result<BinanceOrderbookMessage, string>, mode: BreakStep)
    requires depth > 0
    requires Accepted(s, m) && m.firstUpdateId <= m.lastUpdateId
    ensures var s' := Step(s, depth, Text(Some(m)), fetched, mode).0;
      Step(s', depth, Text(Some(m)), fetched', mode).1 == None
  {
  }

  /** Whatever the scan does at its stop, the book keeps its sides keyed by their own prices with positive amounts. */
  lemma {:induction false} StepKeepsLevels(s: SyncState, depth: nat, frame: Frame<BinanceOrderbookUpdateMessage>, fetched: Result<BinanceOrderbookMessage, string>, mode: BreakStep)
    requires depth > 0
    requires LevelsValid(s.orderbook)
    requires fetched.Success? ==> LevelsValid(SnapshotBook(fetched.value))
    ensures var r := Step(s, depth, frame, fetched, mode);
      && LevelsValid(r.0.orderbook)
      && (r.1.Some? ==> r.1.value.Binance? && LevelsValid(r.1.value.binance))
  {
    if frame.Text? && frame.decoded.Some? && Accepted(s, frame.decoded.value) {
      var m := frame.decoded.value;
      var withBids := HandleSpec(m.bids, s.orderbook, depth, true, Exchange, mode);
      HandleKeepsLevels(m.bids, s.orderbook, depth, true, Exchange, mode);
      HandleKeepsLevels(m.asks, withBids, depth, false, Exchange, mode);
      var withAsks := HandleSpec(m.asks, withBids, depth, false, Exchange, mode);
      ReduceKeepsWellFormed(withAsks, depth);
      AcceptedDeltaApplied(s, depth, m, fetched, mode);
    } else {
      var r := Step(s, depth, frame, fetched, mode);
      assert r.1 == None;
      assert r.0 == s || r.0 == ResyncState(s, fetched);
    }
  }

  /** With the peeking scan, the book also keeps every bid below every ask. */
  lemma {:induction false} CorrectedStepKeepsWellFormed(s: SyncState, depth: nat, frame: Frame<BinanceOrderbookUpdateMessage>, fetched: Result<BinanceOrderbookMessage, string>)
    requires depth > 0
    requires WellFormed(s.orderbook)
    requires fetched.Success? ==> WellFormed(SnapshotBook(fetched.value))
    ensures var r := Step(s, depth, frame, fetched, PeekOnBreak);
      && WellFormed(r.0.orderbook)
      && (r.1.Some? ==> r.1.value.Binance? && WellFormed(r.1.value.binance))
  {
    if frame.Text? && frame.decoded.Some? && Accepted(s, frame.decoded.value) {
      var m := frame.decoded.value;
      var withBids := HandleSpec(m.bids, s.orderbook, depth, true, Exchange, PeekOnBreak);
      CorrectedKeepsWellFormed(m.bids, s.orderbook, depth, true, Exchange);
      CorrectedKeepsWellFormed(m.asks, withBids, depth, false, Exchange);
      var withAsks := HandleSpec(m.asks, withBids, depth, false, Exchange, PeekOnBreak);
      ReduceKeepsWellFormed(withAsks, depth);
      AcceptedDeltaApplied(s, depth, m, fetched, PeekOnBreak);
    } else {
      var r := Step(s, depth, frame, fetched, PeekOnBreak);
      assert r.1 == None;
      assert r.0 == s || r.0 == ResyncState(s, fetched);
    }
  }

  /**
   * As written, an in-sequence delta can leave and send a crossed book: bids {9}, asks {10} and a
   * delta with bids 9.5 then 10 keeps ask 10, because the scan for 9.5 consumes it, while every
   * level stays keyed by its price with a positive amount.
   */
  lemma AsWrittenStepSendsCrossedBook(depth: nat, fetched: Result<BinanceOrderbookMessage, string>)
    requires depth >= 2
    ensures var ob := Orderbook(map[9.0 := Level(9.0, 1.0, Exchange)], map[10.0 := Level(10.0, 1.0, Exchange)]);
            var s := SyncState(ob, 0, false, 5);
            var m := BinanceOrderbookUpdateMessage(6, 6, [OrderbookLevel((9.5, 1.0)), OrderbookLevel((10.0, 1.0))], []);
            var r := Step(s, depth, Text(Some(m)), fetched, ConsumeOnBreak);
      && WellFormed(ob)
      && r.1 == Some(Binance(r.0.orderbook))
      && LevelsValid(r.0.orderbook)
      && 10.0 in r.0.orderbook.bids && 10.0 in r.0.orderbook.asks && !Uncrossed(r.0.orderbook)
  {
    var ob := Orderbook(map[9.0 := Level(9.0, 1.0, Exchange)], map[10.0 := Level(10.0, 1.0, Exchange)]);
    var s := SyncState(ob, 0, false, 5);
    var m := BinanceOrderbookUpdateMessage(6, 6, [OrderbookLevel((9.5, 1.0)), OrderbookLevel((10.0, 1.0))], []);
    assert Accepted(s, m);
    AcceptedDeltaApplied(s, depth, m, fetched, ConsumeOnBreak);
    AsWrittenDeltaBook(depth);
  }

  /** The book the as-written delta of `AsWrittenStepSendsCrossedBook` leaves: crossed, small enough to send uncut. */
  lemma AsWrittenDeltaBook(depth: nat)
    requires depth >= 2
    ensures var ob := Orderbook(map[9.0 := Level(9.0, 1.0, Exchange)], map[10.0 := Level(10.0, 1.0, Exchange)]);
            var v := [OrderbookLevel((9.5, 1.0)), OrderbookLevel((10.0, 1.0))];
            var book := HandleSpec([], HandleSpec(v, ob, depth, true, Exchange, ConsumeOnBreak), depth, false, Exchange, ConsumeOnBreak);
      && WellFormed(ob)
      && LevelsValid(book) && Reduce(book, depth) == book
      && 10.0 in book.bids && 10.0 in book.asks && !Uncrossed(book)
  {
    var ob := Orderbook(map[9.0 := Level(9.0, 1.0, Exchange)], map[10.0 := Level(10.0, 1.0, Exchange)]);
    var v := [OrderbookLevel((9.5, 1.0)), OrderbookLevel((10.0, 1.0))];
    var withBids := HandleSpec(v, ob, depth, true, Exchange, ConsumeOnBreak);
    AsWrittenLeavesCrossedLevel(depth);
    HandleKeepsLevels(v, ob, depth, true, Exchange, ConsumeOnBreak);
    var book := HandleSpec([], withBids, depth, false, Exchange, ConsumeOnBreak);
    assert book == withBids;
    assert |book.asks| == 1 by {
      assert book.asks == ob.asks;
    }
  }

  /**
   * Snapshot `lastUpdateId` 100 with bid 10.0 x 1.0 and ask 11.0 x 1.0, then the delta `U = u = 101`
   * with bid 10.0 x 2.0: the delta is applied and bid 10.0 now holds 2.0.
   */
  lemma SnapshotThenDeltaScenario(depth: nat, fetched: Result<BinanceOrderbookMessage, string>, mode: BreakStep)
    requires depth > 0
    ensures var snap := BinanceOrderbookMessage(100, [OrderbookLevel((10.0, 1.0))], [OrderbookLevel((11.0, 1.0))]);
            var s := SyncState(SnapshotBook(snap), 100, true, 0);
            var m := BinanceOrderbookUpdateMessage(101, 101, [OrderbookLevel((10.0, 2.0))], []);
            var r := Step(s, depth, Text(Some(m)), fetched, mode);
      && r.1.Some?
      && 10.0 in r.0.orderbook.bids && r.0.orderbook.bids[10.0] == Level(10.0, 2.0, Exchange)
  {
    var snap := BinanceOrderbookMessage(100, [OrderbookLevel((10.0, 1.0))], [OrderbookLevel((11.0, 1.0))]);
    var s := SyncState(SnapshotBook(snap), 100, true, 0);
    var m := BinanceOrderbookUpdateMessage(101, 101, [OrderbookLevel((10.0, 2.0))], []);
    assert Accepted(s, m);
    var withBids := HandleSpec(m.bids, s.orderbook, depth, true, Exchange, mode);
    AcceptedDeltaApplied(s, depth, m, fetched, mode);
    UpsertOneBid(s.orderbook, depth, mode);
    HandleOppositeSide(m.asks, withBids, depth, false, Exchange, mode);
  }

  /** A single positive bid update stores its level, whatever the book held before. */
  lemma UpsertOneBid(ob: Orderbook, depth: nat, mode: BreakStep)
    requires depth > 0
    ensures var withBids := HandleSpec([OrderbookLevel((10.0, 2.0))], ob, depth, true, Exchange, mode);
      10.0 in withBids.bids && withBids.bids[10.0] == Level(10.0, 2.0, Exchange)
  {
    var v := [OrderbookLevel((10.0, 2.0))];
    HandleUpdatedSide(v, ob, depth, true, Exchange, mode);
    assert Take(v, depth) == v;
    assert v[..0] == [];
  }

  /** After the first delta, `prev_u = 101` and a delta `U = 105`, `u = 106` is a gap: nothing is applied. */
  lemma GapScenario(ob: Orderbook, depth: nat, fetched: Result<BinanceOrderbookMessage, string>, mode: BreakStep)
    requires depth > 0
    ensures var s := SyncState(ob, 100, false, 101);
            var m := BinanceOrderbookUpdateMessage(105, 106, [], []);
            var r := Step(s, depth, Text(Some(m)), fetched, mode);
      r.1 == None && r.0 == ResyncState(s, fetched) && (fetched.Success? ==> r.0.isFirst)
  {
  }

  /**
   * The collector of `consume_orderbooks`: the book, `last_update_id`, `is_first` and `prev_u`,
   * updated per stream item.
   */
  class BinanceCollector {
    const depth: nat
    var orderbook: Orderbook
    var lastUpdateId: nat
    var isFirst: bool
    var prevU: nat

    function State(): SyncState
      reads this
    {
      SyncState(orderbook, lastUpdateId, isFirst, prevU)
    }

    /** Start-up with the initial snapshot already fetched: its book and id, waiting for a first delta. */
    constructor(depth: nat, snapshot: BinanceOrderbookMessage)
      requires depth > 0
      ensures this.depth == depth
      ensures State() == SyncState(SnapshotBook(snapshot), snapshot.lastUpdateId, true, 0)
    {
      this.depth := depth;
      var ob, id := GetSnapshot(Success(snapshot), Orderbook(map[], map[]));
      orderbook := ob;
      lastUpdateId := id.value;
      isFirst := true;
      prevU := 0;
    }

    /** A `get_snapshot` call and its `match`: on success the new book and id, and `is_first` set. */
    method Resync(fetched: Result<BinanceOrderbookMessage, string>)
      modifies this
      ensures State() == ResyncState(old(State()), fetched)
    {
      var ob, id := GetSnapshot(fetched, orderbook);
      if id.Success? {
        orderbook := ob;
        lastUpdateId := id.value;
        isFirst := true;
      }
    }

    /** The closure `consume_orderbooks` runs for each stream item. */
    method ConsumeMessage(frame: Frame<BinanceOrderbookUpdateMessage>, fetched: Result<BinanceOrderbookMessage, string>)
      returns (sent: Option<Orderbooks>)
      requires depth > 0
      modifies this
      ensures (State(), sent) == Step(old(State()), depth, frame, fetched, ConsumeOnBreak)
    {
      sent := None;
      match frame {
        case TransportError =>
        case NotText =>
          Resync(fetched);
        case Text(decoded) =>
          if decoded.Some? {
            sent := ConsumeDelta(decoded.value, fetched);
          }
      }
    }

    /** A decoded delta: dropped if stale, a resync if out of sequence, applied otherwise. */
    method ConsumeDelta(m: BinanceOrderbookUpdateMessage, fetched: Result<BinanceOrderbookMessage, string>)
      returns (sent: Option<Orderbooks>)
      requires depth > 0
      modifies this
      ensures (State(), sent) == Step(old(State()), depth, Text(Some(m)), fetched, ConsumeOnBreak)
    {
      sent := None;
      if m.lastUpdateId <= lastUpdateId {
        return;
      }
      if !isFirst && prevU + 1 != m.firstUpdateId {
        Resync(fetched);
        return;
      }
      if isFirst && m.firstUpdateId <= lastUpdateId + 1 && m.lastUpdateId >= lastUpdateId + 1 {
        isFirst := false;
      } else if isFirst {
        Resync(fetched);
        return;
      }
      AcceptedDeltaApplied(old(State()), depth, m, fetched, ConsumeOnBreak);
      sent := ApplyDelta(m);
    }

    /** An accepted delta: `prev_u` becomes its `u`, both sides are updated and the reduced book is sent. */
    method ApplyDelta(m: BinanceOrderbookUpdateMessage) returns (sent: Option<Orderbooks>)
      requires depth > 0
      modifies this
      ensures orderbook == HandleSpec(m.asks, HandleSpec(m.bids, old(orderbook), depth, true, Exchange, ConsumeOnBreak), depth, false, Exchange, ConsumeOnBreak)
      ensures lastUpdateId == old(lastUpdateId) && isFirst == old(isFirst) && prevU == m.lastUpdateId
      ensures sent == Some(Binance(Reduce(orderbook, depth)))
    {
      prevU := m.lastUpdateId;
      var ob := HandleUpdateMessage(m.bids, orderbook, depth, true, Exchange, ConsumeOnBreak);
      ob := HandleUpdateMessage(m.asks, ob, depth, false, Exchange, ConsumeOnBreak);
      orderbook := ob;
      sent := Some(Binance(Reduce(orderbook, depth)));
    }
  }

  /**
   * `get_snapshot` on the fetched response: on success both sides are cleared and refilled from
   * the snapshot and its id is returned; on a failed fetch the book is left as it was.
   */
  method GetSnapshot(fetched: Result<BinanceOrderbookMessage, string>, ob: Orderbook) returns (ob': Orderbook, id: Result<nat, string>)
    ensures fetched.Failure? ==> ob' == ob && id == Failure(fetched.error)
    ensures fetched.Success? ==> ob' == SnapshotBook(fetched.value) && id == Success(fetched.value.lastUpdateId)
  {
    match fetched {
      case Failure(e) =>
        ob', id := ob, Failure(e);
      case Success(m) =>
        ob' := BuildFreshBook(m.bids, m.asks, Exchange);
        id := Success(m.lastUpdateId);
    }
  }

  /**
   * The closure of `consume_reduced_orderbooks`: every decoded message becomes a new book of its
   * own levels, sent without reduction; other items send nothing.
   */
  method ConsumeReducedMessage(frame: Frame<BinanceOrderbookMessage>) returns (sent: Option<Orderbooks>)
    ensures !(frame.Text? && frame.decoded.Some?) ==> sent == None
    ensures frame.Text? && frame.decoded.Some? ==>
      sent == Some(Binance(FreshBook(frame.decoded.value.bids, frame.decoded.value.asks, Exchange)))
  {
    sent := None;
    if frame.Text? && frame.decoded.Some? {
      var m := frame.decoded.value;
      var ob := BuildFreshBook(m.bids, m.asks, Exchange);
      sent := Some(Binance(ob));
    }
  }
}
