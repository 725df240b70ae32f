/** Stock reading (`_get_stock_quantity`): one POST to the stock endpoint, read
    fail-closed. */
module Stock {
  import opened Wrappers

  /** One entry of the endpoint's `items` list; `onStock` may be absent. */
  datatype StockEntry = StockEntry(onStock: Option<int>)

  /** What the endpoint call produced: a transport, status or decoding error,
      or a decoded body whose `items` list may be empty or missing (an empty
      list). */
  datatype StockReply = RequestFailed | Reply(items: seq<StockEntry>)

  /** A reply reports `n` when it decoded and its first entry carries `onStock == n`. */
  predicate Reports(reply: StockReply, n: int) {
    reply.Reply? && |reply.items| > 0 && reply.items[0].onStock == Some(n)
  }

  /** The available quantity the service acts on. Anything but a reported
      value reads as zero, so no failure can make stock look available. */
  function AvailableStock(reply: StockReply): (n: int)
    ensures n != 0 ==> Reports(reply, n)
    ensures forall m :: Reports(reply, m) ==> n == m
    ensures reply.RequestFailed? ==> n == 0
  {
    match reply
    case RequestFailed => 0
    case Reply(items) =>
      if |items| > 0 then items[0].onStock.GetOr(0) else 0
  }
}
