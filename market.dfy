/** Plain records for the values the exchange host hands to the trader each tick
    and the orders the trader hands back. */
module Market {

  /** A resting or submitted order: positive quantity buys, negative sells. */
  datatype Order = Order(product: string, price: real, quantity: int)

  /** One product's book: price -> resting size. Sell sizes are negative,
      buy sizes positive, by the exchange's convention. */
  datatype OrderDepth = OrderDepth(sellOrders: map<int, int>, buyOrders: map<int, int>)

  /** The snapshot of one tick: the listed products (in listing order), their
      books and the trader's current signed positions. */
  datatype TradingState = TradingState(
    listings: seq<string>,
    orderDepths: map<string, OrderDepth>,
    position: map<string, int>)

  /** The exceptions the trader can raise. */
  datatype Error =
    | MissingDepth      // no book for a listed product (KeyError)
    | MissingHistory    // product not tracked by the history store (KeyError)
    | MissingLimit      // product without an inventory limit (KeyError)
    | NoData            // median or mean of an empty sample (StatisticsError)
    | NeedTwoPoints     // stdev of fewer than two points (StatisticsError)

  datatype Result<T> = Ok(value: T) | Err(error: Error)

  datatype Option<T> = None | Some(value: T)

  /** Position of a product, 0 when the host gives none. */
  function PositionOf(position: map<string, int>, product: string): int
  {
    if product in position then position[product] else 0
  }

  /** No product is listed twice (the listings are the keys of a dictionary). */
  predicate Distinct(products: seq<string>)
  {
    forall i, j :: 0 <= i < j < |products| ==> products[i] != products[j]
  }

  /** Sum of the quantities of a batch of orders. */
  function TotalQuantity(orders: seq<Order>): int
  {
    if orders == [] then 0 else orders[0].quantity + TotalQuantity(orders[1..])
  }

  lemma {:induction false} TotalQuantityAppend(a: seq<Order>, b: seq<Order>)
    ensures TotalQuantity(a + b) == TotalQuantity(a) + TotalQuantity(b)
  {
    if a != [] {
      assert (a + b)[1..] == a[1..] + b;
      TotalQuantityAppend(a[1..], b);
    } else {
      assert a + b == b;
    }
  }

  lemma AppendAssoc(a: seq<Order>, b: seq<Order>, c: seq<Order>)
    ensures (a + b) + c == a + (b + c)
  {
  }
}
