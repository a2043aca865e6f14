/**
 * The Bitstamp collector of obagg/src/bitstamp.rs. Every order-book message is a complete
 * snapshot: a new book is filled from it, reduced to the configured depth and sent.
 */
module Bitstamp {
  import opened Wrappers
  import opened Definitions
  import Serde

  const Exchange: string := "bitstamp"

  datatype BitstampOrderbookData = BitstampOrderbookData(
    timestamp: Serde.U32, microtimestamp: Serde.U64, bids: seq<OrderbookLevel>, asks: seq<OrderbookLevel>)

  datatype BitstampOrderbookMessage = BitstampOrderbookMessage(data: BitstampOrderbookData, channel: string, event: string)

  /**
   * The closure `consume_orderbooks` runs for each stream item: a decoded message yields the
   * reduced book of its own levels, tagged Bitstamp; a transport error, a frame the message
   * handler rejects or text that does not decode sends nothing.
   */
  method ConsumeMessage(depth: nat, frame: Frame<BitstampOrderbookMessage>) returns (sent: Option<Orderbooks>)
    requires depth > 0
    ensures !(frame.Text? && frame.decoded.Some?) ==> sent == None
    ensures frame.Text? && frame.decoded.Some? ==>
      var data := frame.decoded.value.data;
      sent == Some(Bitstamp(Reduce(FreshBook(data.bids, data.asks, Exchange), depth)))
  {
    sent := None;
    if frame.Text? && frame.decoded.Some? {
      var data := frame.decoded.value.data;
      var ob := BuildFreshBook(data.bids, data.asks, Exchange);
      sent := Some(Bitstamp(Reduce(ob, depth)));
    }
  }

  /**
   * What a message sends depends on that message alone: each sent entry is the last entry of the
   * message at its price, and a side is cut to `depth` only when both sides exceed it.
   */
  lemma SentBookFromMessageOnly(depth: nat, m: BitstampOrderbookMessage, p: real)
    requires depth > 0
    ensures var book := FreshBook(m.data.bids, m.data.asks, Exchange);
            var sent := Reduce(book, depth);
      && (p in sent.bids ==> LastAt(m.data.bids, p) >= 0 && sent.bids[p] == GetLevel(m.data.bids[LastAt(m.data.bids, p)], Exchange))
      && (p in sent.asks ==> LastAt(m.data.asks, p) >= 0 && sent.asks[p] == GetLevel(m.data.asks[LastAt(m.data.asks, p)], Exchange))
      && (!(|book.bids| > depth && |book.asks| > depth) ==> sent == book)
  {
    FreshBookAt(m.data.bids, m.data.asks, Exchange, p);
  }
}
