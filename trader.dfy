/** The `Trader` class of trading_algo.py: a per-product history store, the
    product limits, and the per-tick `run` that records fair prices, estimates
    an interval per product and trades against it with `stationary_good`. */
module TradingAlgo {
  import opened Market
  import opened Statistics
  import opened History
  import opened Estimation
  import opened Taker

  /** The inventory limits of line 12. */
  const Limits: map<string, int> :=
    map["PEARLS" := 20, "BANANAS" := 20, "COCONUTS" := 600, "PINA_COLADAS" := 300]

  /** The empty histories of line 11. */
  const EmptyHistory: map<string, seq<real>> :=
    map["PEARLS" := [], "BANANAS" := [], "COCONUTS" := [], "PINA_COLADAS" := []]

  /** The loop of lines 99-107 from `products` on, having filled `acc`: one
      `stationary_good` batch per product, at that product's interval. */
  function DispatchFrom(limits: map<string, int>, state: TradingState, ex: map<string, (real, real)>,
                        products: seq<string>, acc: map<string, seq<Order>>): Result<map<string, seq<Order>>>
    requires forall p :: p in products ==> p in state.orderDepths && p in ex
  {
    if products == [] then Ok(acc)
    else
      var p := products[0];
      if p !in limits then Err(MissingLimit)
      else
        var (lb, ub) := ex[p];
        var orders := StationaryOrders(p, state.orderDepths[p], limits[p], PositionOf(state.position, p), lb, ub);
        DispatchFrom(limits, state, ex, products[1..], acc[p := orders])
  }

  /** One call of `run` (lines 93-108) on a history store: the new store and
      the result, or the exception raised. */
  function Tick(limits: map<string, int>, history: map<string, seq<real>>, state: TradingState, sqrt: Root)
    : (map<string, seq<real>>, Result<map<string, seq<Order>>>)
  {
    var (h, err) := RecordAll(history, state.listings, state.orderDepths);
    if err.Some? then (h, Err(err.value))
    else
      RecordAllSucceeds(history, state.listings, state.orderDepths);
      match Expectations(h, state.listings, sqrt)
      case Err(e) => (h, Err(e))
      case Ok(ex) =>
        ExpectationsMeaning(h, state.listings, sqrt);
        (h, DispatchFrom(limits, state, ex, state.listings, map[]))
  }

  /** The buy leg of lines 49-68: the asks below `lb`, then the walk. */
  method BuyPass(product: string, sell: map<int, int>, capacity: int, lb: real) returns (orders: seq<Order>)
    ensures orders == BuyLeg(product, sell, capacity, lb)
  {
    var ask := AsksBelow(sell, lb);
    AsksBelowLevels(sell, lb);
    var askVolumes := Volumes(sell, ask);
    orders := TakeAsks(product, ask, askVolumes, capacity, lb);
  }

  /** The sell leg of lines 70-89: the bids above `ub`, then the walk. */
  method SellPass(product: string, buy: map<int, int>, capacity: int, ub: real) returns (orders: seq<Order>)
    ensures orders == SellLeg(product, buy, capacity, ub)
  {
    var bid := BidsAbove(buy, ub);
    BidsAboveLevels(buy, ub);
    var bidVolumes := Volumes(buy, bid);
    orders := TakeBids(product, bid, bidVolumes, capacity, ub);
  }

  /** Lines 49-89 for a product with limit `limit` held at `position`: the buy
      leg at capacity `limit - position`, then the sell leg at `limit + position`. */
  method TradeBand(product: string, depth: OrderDepth, limit: int, position: int, lb: real, ub: real)
    returns (orders: seq<Order>)
    ensures orders == StationaryOrders(product, depth, limit, position, lb, ub)
  {
    var buys := BuyPass(product, depth.sellOrders, limit - position, lb);
    var sells := SellPass(product, depth.buyOrders, limit + position, ub);
    StationaryOrdersSplit(product, depth, limit, position, lb, ub, buys, sells);
    orders := buys + sells;
  }

  /** The buy loop of lines 55-68: walk the asks cheapest first, popping each
      level, then post what capacity is left at `lb`. */
  method TakeAsks(product: string, asks: seq<int>, askVolumes: seq<int>, capacity: int, lb: real)
    returns (orders: seq<Order>)
    requires |asks| == |askVolumes|
    ensures orders == BuyWalk(product, asks, askVolumes, capacity, lb)
  {
    orders := [];
    var ask, vols, limit := asks, askVolumes, capacity;
    while |ask| > 0
      invariant |ask| == |vols|
      invariant orders + BuyTakes(product, ask, vols, limit) == BuyTakes(product, asks, askVolumes, capacity)
      invariant limit + SumInts(vols) == capacity + SumInts(askVolumes)
    {
      ghost var before := orders;
      ghost var rest := BuyTakes(product, ask[1..], vols[1..], limit + vols[0]);
      ghost var now: seq<Order> := [];
      BuyTakesStep(product, ask, vols, limit);
      if limit + vols[0] > 0 {
        now := [Order(product, ask[0] as real, -vols[0])];
        orders := orders + [Order(product, ask[0] as real, -vols[0])];
      } else if limit > 0 {
        now := [Order(product, ask[0] as real, limit)];
        orders := orders + [Order(product, ask[0] as real, limit)];
      }
      assert orders == before + now;
      AppendAssoc(before, now, rest);
      limit := limit + vols[0];
      ask, vols := ask[1..], vols[1..];
    }
    assert orders == BuyTakes(product, asks, askVolumes, capacity);
    if limit > 0 {
      orders := orders + [Order(product, lb, limit)];
    }
  }

  /** The sell loop of lines 76-89: walk the bids in the order given, popping
      each level, then post what capacity is left at `ub`. */
  method TakeBids(product: string, bids: seq<int>, bidVolumes: seq<int>, capacity: int, ub: real)
    returns (orders: seq<Order>)
    requires |bids| == |bidVolumes|
    ensures orders == SellWalk(product, bids, bidVolumes, capacity, ub)
  {
    orders := [];
    var bid, vols, limit := bids, bidVolumes, capacity;
    while |bid| > 0
      invariant |bid| == |vols|
      invariant orders + SellTakes(product, bid, vols, limit) == SellTakes(product, bids, bidVolumes, capacity)
      invariant limit - SumInts(vols) == capacity - SumInts(bidVolumes)
    {
      ghost var before := orders;
      ghost var rest := SellTakes(product, bid[1..], vols[1..], limit - vols[0]);
      ghost var now: seq<Order> := [];
      SellTakesStep(product, bid, vols, limit);
      if limit - vols[0] > 0 {
        now := [Order(product, bid[0] as real, -vols[0])];
        orders := orders + [Order(product, bid[0] as real, -vols[0])];
      } else if limit > 0 {
        now := [Order(product, bid[0] as real, -limit)];
        orders := orders + [Order(product, bid[0] as real, -limit)];
      }
      assert orders == before + now;
      AppendAssoc(before, now, rest);
      limit := limit - vols[0];
      bid, vols := bid[1..], vols[1..];
    }
    assert orders == SellTakes(product, bids, bidVolumes, capacity);
    if limit > 0 {
      orders := orders + [Order(product, ub, -limit)];
    }
  }

  /** Dispatch fails, with the missing limit, exactly when a listed product has
      no limit; otherwise every listed product gets its `stationary_good`
      batch and the entries already made are kept. */
  lemma {:induction false} DispatchFromMeaning(limits: map<string, int>, state: TradingState, ex: map<string, (real, real)>,
                                               products: seq<string>, acc: map<string, seq<Order>>)
    requires forall p :: p in products ==> p in state.orderDepths && p in ex
    ensures var r := DispatchFrom(limits, state, ex, products, acc);
      && (r.Ok? <==> forall p :: p in products ==> p in limits)
      && (r.Err? ==> r.error == MissingLimit)
      && (r.Ok? ==> forall p :: p in r.value <==> p in acc || p in products)
      && (r.Ok? ==> forall p :: p in acc && p !in products ==> r.value[p] == acc[p])
      && (r.Ok? ==> forall p :: p in products ==>
            (p in limits && p in r.value &&
             r.value[p] == StationaryOrders(p, state.orderDepths[p], limits[p], PositionOf(state.position, p), ex[p].0, ex[p].1)))
  {
    if products != [] {
      var p := products[0];
      assert forall q :: q in products <==> q == p || q in products[1..];
      if p in limits {
        var orders := StationaryOrders(p, state.orderDepths[p], limits[p], PositionOf(state.position, p), ex[p].0, ex[p].1);
        DispatchFromMeaning(limits, state, ex, products[1..], acc[p := orders]);
      }
    }
  }

  /** A tick of distinct listings succeeds exactly when every listed product
      has a book, is tracked, has a non-empty book to price, already had at
      least one fair price recorded (so that the standard deviation has two
      points) and has a limit. */
  lemma RunSucceeds(limits: map<string, int>, history: map<string, seq<real>>, state: TradingState, sqrt: Root)
    requires Distinct(state.listings)
    ensures Tick(limits, history, state, sqrt).1.Ok? <==>
      forall p :: p in state.listings ==>
        p in state.orderDepths && p in history && FairPrice(state.orderDepths[p]).Ok? &&
        1 <= |history[p]| && p in limits
  {
    var (h, err) := RecordAll(history, state.listings, state.orderDepths);
    RecordAllSucceeds(history, state.listings, state.orderDepths);
    if err.None? {
      RecordAllAppends(history, state.listings, state.orderDepths);
      forall p | p in state.listings ensures Expected(h, p, sqrt).Ok? <==> 1 <= |history[p]| {
        ExpectedFails(h, p, sqrt);
      }
      ExpectationsMeaning(h, state.listings, sqrt);
      var ex := Expectations(h, state.listings, sqrt);
      if ex.Ok? {
        DispatchFromMeaning(limits, state, ex.value, state.listings, map[]);
        assert Tick(limits, history, state, sqrt).1 == DispatchFrom(limits, state, ex.value, state.listings, map[]);
      } else {
        assert Tick(limits, history, state, sqrt).1.Err?;
      }
    }
  }

  /** A successful tick of distinct listings appends one fair price per listed
      product and answers each listed product, and only those, with the
      `stationary_good` batch at the interval estimated from the new history. */
  lemma RunOrders(limits: map<string, int>, history: map<string, seq<real>>, state: TradingState, sqrt: Root)
    requires Distinct(state.listings)
    ensures var (h, r) := Tick(limits, history, state, sqrt);
      r.Ok? ==>
        && h.Keys == history.Keys
        && (forall p :: p in h && p !in state.listings ==> h[p] == history[p])
        && (forall p :: p in r.value <==> p in state.listings)
        && (forall p :: p in state.listings ==>
              && p in state.orderDepths && p in history && p in h && p in limits && p in r.value
              && FairPrice(state.orderDepths[p]).Ok?
              && h[p] == history[p] + [FairPrice(state.orderDepths[p]).value]
              && Expected(h, p, sqrt).Ok?
              && r.value[p] == StationaryOrders(p, state.orderDepths[p], limits[p], PositionOf(state.position, p),
                                                Expected(h, p, sqrt).value.0, Expected(h, p, sqrt).value.1))
  {
    var (h, err) := RecordAll(history, state.listings, state.orderDepths);
    RecordAllSucceeds(history, state.listings, state.orderDepths);
    if err.None? {
      RecordAllAppends(history, state.listings, state.orderDepths);
      ExpectationsMeaning(h, state.listings, sqrt);
      var ex := Expectations(h, state.listings, sqrt);
      if ex.Ok? {
        DispatchFromMeaning(limits, state, ex.value, state.listings, map[]);
        assert Tick(limits, history, state, sqrt) == (h, DispatchFrom(limits, state, ex.value, state.listings, map[]));
      }
    }
  }

  /** On books that follow the exchange's sign conventions, every batch of a
      successful tick keeps that product within its limit. */
  lemma RunWithinLimits(limits: map<string, int>, history: map<string, seq<real>>, state: TradingState, sqrt: Root)
    requires Distinct(state.listings)
    requires forall p, q :: p in state.orderDepths && q in state.orderDepths[p].sellOrders ==> state.orderDepths[p].sellOrders[q] < 0
    requires forall p, q :: p in state.orderDepths && q in state.orderDepths[p].buyOrders ==> state.orderDepths[p].buyOrders[q] > 0
    ensures var r := Tick(limits, history, state, sqrt).1;
      r.Ok? ==> forall p :: p in state.listings ==>
        p in r.value && p in limits && WithinLimit(r.value[p], limits[p], PositionOf(state.position, p))
  {
    RunOrders(limits, history, state, sqrt);
    var (h, r) := Tick(limits, history, state, sqrt);
    if r.Ok? {
      forall p | p in state.listings
        ensures p in r.value && p in limits && WithinLimit(r.value[p], limits[p], PositionOf(state.position, p))
      {
        var e := Expected(h, p, sqrt).value;
        StationaryOrdersWithinLimit(p, state.orderDepths[p], limits[p], PositionOf(state.position, p), e.0, e.1);
      }
    }
  }

  /** A fresh trader cannot trade on its first tick: it raises the record's
      error if there is one, and otherwise every listed product has a single
      fair price, too few for a standard deviation. */
  lemma FirstTickFails(state: TradingState, sqrt: Root)
    requires Distinct(state.listings) && state.listings != []
    ensures Tick(Limits, EmptyHistory, state, sqrt).1.Err?
    ensures var err := RecordAll(EmptyHistory, state.listings, state.orderDepths).1;
      Tick(Limits, EmptyHistory, state, sqrt).1 == Err(if err.Some? then err.value else NeedTwoPoints)
  {
    var (h, err) := RecordAll(EmptyHistory, state.listings, state.orderDepths);
    if err.None? {
      RecordAllAppends(EmptyHistory, state.listings, state.orderDepths);
      var p := state.listings[0];
      assert p in state.listings;
      assert |h[p]| == 1 by {
        assert EmptyHistory[p] == [];
      }
      ExpectedFails(h, p, sqrt);
      ExpectationsStep(h, state.listings, sqrt, map[]);
      assert Tick(Limits, EmptyHistory, state, sqrt).1 == Err(NeedTwoPoints);
    }
  }

  class Trader {
    /** Fair prices recorded so far, per product. */
    var history: map<string, seq<real>>
    /** Inventory limit per product. */
    const limits: map<string, int> := Limits

    /** Exactly the products with a limit have a history. */
    ghost predicate Valid()
      reads this
    {
      history.Keys == limits.Keys
    }

    constructor ()
      ensures Valid()
      ensures history == EmptyHistory
    {
      history := EmptyHistory;
    }

    /** `get_limit` (lines 14-15): the limit of one of the four products,
        raising for any other. */
    function GetLimit(product: string): (r: Result<int>)
      ensures r.Ok? <==> product in ["PEARLS", "BANANAS", "COCONUTS", "PINA_COLADAS"]
      ensures r.Ok? ==> 0 < r.value
      ensures r.Err? ==> r.error == MissingLimit
    {
      if product in limits then Ok(limits[product]) else Err(MissingLimit)
    }

    /** `update_hist` (lines 17-32). */
    method UpdateHist(state: TradingState) returns (err: Option<Error>)
      modifies this
      ensures (history, err) == RecordAll(old(history), state.listings, state.orderDepths)
      ensures history.Keys == old(history).Keys
    {
      RecordAllKeys(history, state.listings, state.orderDepths);
      var i := 0;
      while i < |state.listings|
        invariant 0 <= i <= |state.listings|
        invariant RecordAll(history, state.listings[i..], state.orderDepths)
          == RecordAll(old(history), state.listings, state.orderDepths)
      {
        var product := state.listings[i];
        assert state.listings[i..][1..] == state.listings[i + 1..];
        RecordAllStep(history, state.listings[i..], state.orderDepths);
        if product !in state.orderDepths {
          return Some(MissingDepth);
        }
        var depth := state.orderDepths[product];
        var askHist := ExpandSide(depth.sellOrders, true);
        var bidHist := ExpandSide(depth.buyOrders, false);
        if product !in history {
          return Some(MissingHistory);
        }
        assert multiset(bidHist + askHist) == Expansion(depth.buyOrders, false) + Expansion(depth.sellOrders, true);
        var fair := Median(multiset(bidHist + askHist));
        assert fair == FairPrice(depth);
        if fair.Err? {
          return Some(fair.error);
        }
        history := history[product := history[product] + [fair.value]];
        i := i + 1;
      }
      return None;
    }

    /** `calc_expected` (lines 34-44). */
    method CalcExpected(state: TradingState, sqrt: Root) returns (r: Result<map<string, (real, real)>>)
      ensures r == Expectations(history, state.listings, sqrt)
    {
      var expectations: map<string, (real, real)> := map[];
      var i := 0;
      while i < |state.listings|
        invariant 0 <= i <= |state.listings|
        invariant ExpectationsFrom(history, state.listings[i..], sqrt, expectations)
          == Expectations(history, state.listings, sqrt)
      {
        var product := state.listings[i];
        assert state.listings[i..][1..] == state.listings[i + 1..];
        ExpectationsStep(history, state.listings[i..], sqrt, expectations);
        if product !in history {
          return Err(MissingHistory);
        }
        var sample := Window(history[product]);
        var sma := Mean(sample);
        if sma.Err? {
          return Err(sma.error);
        }
        var std := Stdev(sample, sqrt);
        if std.Err? {
          return Err(std.error);
        }
        assert Expected(history, product, sqrt) == Ok(Band(sma.value, std.value));
        expectations := expectations[product := Band(sma.value, std.value)];
        i := i + 1;
      }
      return Ok(expectations);
    }

    /** `stationary_good` (lines 46-90). */
    method StationaryGood(state: TradingState, product: string, depth: OrderDepth, lb: real, ub: real)
      returns (r: Result<seq<Order>>)
      ensures product !in limits ==> r == Err(MissingLimit)
      ensures product in limits ==>
        r == Ok(StationaryOrders(product, depth, limits[product], PositionOf(state.position, product), lb, ub))
    {
      if product !in limits {
        return Err(MissingLimit);
      }
      var position := if product in state.position then state.position[product] else 0;
      var orders := TradeBand(product, depth, limits[product], position, lb, ub);
      return Ok(orders);
    }

    /** The loop of lines 99-107, for listings that all have a book, an
        interval and a limit: one `stationary_good` batch per product. */
    method Dispatch(state: TradingState, ex: map<string, (real, real)>) returns (result: map<string, seq<Order>>)
      requires forall p :: p in state.listings ==> p in state.orderDepths && p in ex && p in limits
      ensures Ok(result) == DispatchFrom(limits, state, ex, state.listings, map[])
    {
      result := map[];
      var i := 0;
      while i < |state.listings|
        invariant 0 <= i <= |state.listings|
        invariant DispatchFrom(limits, state, ex, state.listings[i..], result)
          == DispatchFrom(limits, state, ex, state.listings, map[])
      {
        var product := state.listings[i];
        assert state.listings[i..][1..] == state.listings[i + 1..];
        var depth := state.orderDepths[product];
        var orders := StationaryGood(state, product, depth, ex[product].0, ex[product].1);
        result := result[product := orders.value];
        i := i + 1;
      }
    }

    /** `run` (lines 93-108). */
    method Run(state: TradingState, sqrt: Root) returns (r: Result<map<string, seq<Order>>>)
      requires Valid()
      modifies this
      ensures Valid()
      ensures (history, r) == Tick(limits, old(history), state, sqrt)
    {
      var err := UpdateHist(state);
      if err.Some? {
        return Err(err.value);
      }
      RecordAllSucceeds(old(history), state.listings, state.orderDepths);
      var expectations := CalcExpected(state, sqrt);
      if expectations.Err? {
        return Err(expectations.error);
      }
      var ex := expectations.value;
      ExpectationsMeaning(history, state.listings, sqrt);
      assert forall p :: p in state.listings ==> p in limits by {
        forall p | p in state.listings ensures p in limits {
          assert p in history;
        }
      }
      var result := Dispatch(state, ex);
      return Ok(result);
    }
  }
}
