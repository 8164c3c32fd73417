/** The fair-price history store of `Trader.update_hist` (trading_algo.py,
    lines 17-32): each tick appends, for every listed product, the median of
    its book expanded by volume. */
module History {
  import opened Market
  import opened Sorting
  import opened Statistics

  /** Python's `[price] * n`, which is empty when `n` is not positive. */
  function Repeat(price: int, n: int): (r: seq<int>)
    ensures |r| == if n <= 0 then 0 else n
    ensures forall i :: 0 <= i < |r| ==> r[i] == price
    decreases n
  {
    if n <= 0 then [] else [price] + Repeat(price, n - 1)
  }

  /** How often a level's price enters the expansion: |size| times for an ask
      (line 26), `size` times for a bid (line 29), so never for a bid whose
      size is not positive. */
  function Copies(size: int, isAsk: bool): nat
  {
    if isAsk then (if size < 0 then -size else size)
    else if size > 0 then size else 0
  }

  lemma {:induction false} RepeatHolds(price: int, n: int)
    ensures multiset(Repeat(price, n)) == multiset{}[price := if n <= 0 then 0 else n]
    decreases n
  {
    if n > 0 {
      RepeatHolds(price, n - 1);
      assert Repeat(price, n) == [price] + Repeat(price, n - 1);
    }
  }

  /** The expansion of the levels at `keys`: each price as often as `Copies` says. */
  function ExpandKeys(levels: map<int, int>, keys: set<int>, isAsk: bool): multiset<int>
    requires keys <= levels.Keys
    decreases keys
  {
    if keys == {} then multiset{}
    else
      var p := SetMin(keys);
      multiset{}[p := Copies(levels[p], isAsk)] + ExpandKeys(levels, keys - {p}, isAsk)
  }

  /** The volume expansion of one side of a book. */
  function Expansion(levels: map<int, int>, isAsk: bool): multiset<int>
  {
    ExpandKeys(levels, levels.Keys, isAsk)
  }

  lemma {:induction false} ExpandKeysCount(levels: map<int, int>, keys: set<int>, isAsk: bool)
    requires keys <= levels.Keys
    ensures forall q :: ExpandKeys(levels, keys, isAsk)[q] == if q in keys then Copies(levels[q], isAsk) else 0
    decreases keys
  {
    if keys != {} {
      var p := SetMin(keys);
      ExpandKeysCount(levels, keys - {p}, isAsk);
    }
  }

  /** Each price of a side appears in its expansion exactly as often as its
      level's `Copies`, and nothing else appears. */
  lemma ExpansionCount(levels: map<int, int>, isAsk: bool)
    ensures forall q :: Expansion(levels, isAsk)[q] == if q in levels then Copies(levels[q], isAsk) else 0
  {
    ExpandKeysCount(levels, levels.Keys, isAsk);
  }

  /** The fair price of a book: the median of the bid expansion followed by
      the ask expansion (line 32). */
  function FairPrice(depth: OrderDepth): Result<real>
  {
    Median(Expansion(depth.buyOrders, false) + Expansion(depth.sellOrders, true))
  }

  /** The fair price fails exactly when no level contributes a copy. */
  lemma FairPriceFails(depth: OrderDepth)
    ensures FairPrice(depth).Err? <==>
      (forall p :: p in depth.sellOrders ==> depth.sellOrders[p] == 0) &&
      (forall p :: p in depth.buyOrders ==> depth.buyOrders[p] <= 0)
    ensures FairPrice(depth).Err? ==> FairPrice(depth).error == NoData
  {
    var bids, asks := Expansion(depth.buyOrders, false), Expansion(depth.sellOrders, true);
    ExpansionCount(depth.buyOrders, false);
    ExpansionCount(depth.sellOrders, true);
    if bids + asks == multiset{} {
      forall p | p in depth.sellOrders ensures depth.sellOrders[p] == 0 {
        assert (bids + asks)[p] == 0;
      }
      forall p | p in depth.buyOrders ensures depth.buyOrders[p] <= 0 {
        assert (bids + asks)[p] == 0;
      }
    } else {
      NonEmptyBagHasElement(bids + asks);
      var x :| x in bids + asks;
      assert x in depth.sellOrders || x in depth.buyOrders;
    }
  }

  /** The fair price lies within any bounds of the book's prices. */
  lemma FairPriceWithin(depth: OrderDepth, lo: int, hi: int)
    requires FairPrice(depth).Ok?
    requires forall p :: p in depth.sellOrders ==> lo <= p <= hi
    requires forall p :: p in depth.buyOrders ==> lo <= p <= hi
    ensures lo as real <= FairPrice(depth).value <= hi as real
  {
    var all := Expansion(depth.buyOrders, false) + Expansion(depth.sellOrders, true);
    ExpansionCount(depth.buyOrders, false);
    ExpansionCount(depth.sellOrders, true);
    forall x | x in all ensures lo <= x <= hi {
      assert x in depth.sellOrders || x in depth.buyOrders;
    }
    MedianWithin(all, lo, hi);
  }

  /** The fair price lies between two prices of the book. */
  lemma FairPriceBetweenPrices(depth: OrderDepth) returns (lo: int, hi: int)
    requires FairPrice(depth).Ok?
    ensures lo in depth.sellOrders || lo in depth.buyOrders
    ensures hi in depth.sellOrders || hi in depth.buyOrders
    ensures lo as real <= FairPrice(depth).value <= hi as real
  {
    var all := Expansion(depth.buyOrders, false) + Expansion(depth.sellOrders, true);
    assert FairPrice(depth) == Median(all);
    lo, hi := MedianBetweenData(all);
    FromBook(depth, lo);
    FromBook(depth, hi);
  }

  /** Every value of the expanded book is one of its prices. */
  lemma FromBook(depth: OrderDepth, x: int)
    requires x in Expansion(depth.buyOrders, false) + Expansion(depth.sellOrders, true)
    ensures x in depth.sellOrders || x in depth.buyOrders
  {
    ExpansionCount(depth.buyOrders, false);
    ExpansionCount(depth.sellOrders, true);
  }

  /** Lines 18-32 applied to a history store: the listed products' fair
      prices are appended in listing order; the first product whose book is
      missing, whose history is not tracked or whose book is empty raises,
      and the appends made before it stay. */
  function RecordAll(history: map<string, seq<real>>, products: seq<string>, depths: map<string, OrderDepth>)
    : (map<string, seq<real>>, Option<Error>)
  {
    if products == [] then (history, None)
    else
      var p := products[0];
      if p !in depths then (history, Some(MissingDepth))
      else if p !in history then (history, Some(MissingHistory))
      else match FairPrice(depths[p])
        case Err(e) => (history, Some(e))
        case Ok(v) => RecordAll(history[p := history[p] + [v]], products[1..], depths)
  }

  /** One step of the record: the first listed product either raises or has
      its fair price appended before the rest are recorded. */
  lemma RecordAllStep(history: map<string, seq<real>>, products: seq<string>, depths: map<string, OrderDepth>)
    requires products != []
    ensures var p := products[0];
      && (p !in depths ==> RecordAll(history, products, depths) == (history, Some(MissingDepth)))
      && (p in depths && p !in history ==> RecordAll(history, products, depths) == (history, Some(MissingHistory)))
      && (p in depths && p in history && FairPrice(depths[p]).Err? ==>
            RecordAll(history, products, depths) == (history, Some(FairPrice(depths[p]).error)))
      && (p in depths && p in history && FairPrice(depths[p]).Ok? ==>
            RecordAll(history, products, depths) ==
            RecordAll(history[p := history[p] + [FairPrice(depths[p]).value]], products[1..], depths))
  {
  }

  /** A record never adds or removes a tracked product. */
  lemma {:induction false} RecordAllKeys(history: map<string, seq<real>>, products: seq<string>, depths: map<string, OrderDepth>)
    ensures RecordAll(history, products, depths).0.Keys == history.Keys
  {
    if products != [] {
      var p := products[0];
      RecordAllStep(history, products, depths);
      if p in depths && p in history && FairPrice(depths[p]).Ok? {
        RecordAllKeys(history[p := history[p] + [FairPrice(depths[p]).value]], products[1..], depths);
      }
    }
  }

  /** A record succeeds exactly when every listed product has a book, a
      history and a fair price. */
  lemma {:induction false} RecordAllSucceeds(history: map<string, seq<real>>, products: seq<string>, depths: map<string, OrderDepth>)
    ensures RecordAll(history, products, depths).1.None? <==>
      forall p :: p in products ==> p in depths && p in history && FairPrice(depths[p]).Ok?
  {
    if products != [] {
      var p := products[0];
      if p in depths && p in history && FairPrice(depths[p]).Ok? {
        var h := history[p := history[p] + [FairPrice(depths[p]).value]];
        RecordAllSucceeds(h, products[1..], depths);
        assert h.Keys == history.Keys;
        assert forall q :: q in products <==> q == p || q in products[1..];
      }
    }
  }

  /** A successful record of distinct products appends exactly one fair price
      to each listed product's history and leaves every other history as it was. */
  lemma {:induction false} RecordAllAppends(history: map<string, seq<real>>, products: seq<string>, depths: map<string, OrderDepth>)
    requires Distinct(products)
    requires RecordAll(history, products, depths).1.None?
    ensures var h := RecordAll(history, products, depths).0;
      && h.Keys == history.Keys
      && (forall p :: p in products ==>
            (p in depths && p in history && FairPrice(depths[p]).Ok? &&
             h[p] == history[p] + [FairPrice(depths[p]).value]))
      && (forall p :: p in history && p !in products ==> h[p] == history[p])
  {
    RecordAllKeys(history, products, depths);
    if products != [] {
      var p := products[0];
      var h1 := history[p := history[p] + [FairPrice(depths[p]).value]];
      var rest := products[1..];
      assert Distinct(rest);
      RecordAllAppends(h1, rest, depths);
      assert p !in rest;
      forall q | q in products
        ensures q in depths && q in history && FairPrice(depths[q]).Ok? &&
          RecordAll(history, products, depths).0[q] == history[q] + [FairPrice(depths[q]).value]
      {
        if q != p { assert q in rest; }
      }
    }
  }

  /** The loop of lines 25-27 (or 28-30 for bids) with its flattening: each
      level's price repeated as often as its `Copies`, in the order the book
      lists its levels. */
  method ExpandSide(levels: map<int, int>, isAsk: bool) returns (xs: seq<int>)
    ensures multiset(xs) == Expansion(levels, isAsk)
  {
    xs := [];
    var todo := levels.Keys;
    while todo != {}
      invariant todo <= levels.Keys
      invariant forall q :: multiset(xs)[q] == if q in levels && q !in todo then Copies(levels[q], isAsk) else 0
      decreases todo
    {
      NonEmptyHasElement(todo);
      var price :| price in todo;
      var size := levels[price];
      var copies := Repeat(price, if isAsk then (if size < 0 then -size else size) else size);
      RepeatHolds(price, if isAsk then (if size < 0 then -size else size) else size);
      assert multiset(copies) == multiset{}[price := Copies(size, isAsk)];
      ghost var prev := xs;
      xs := xs + copies;
      assert multiset(xs) == multiset(prev) + multiset{}[price := Copies(size, isAsk)];
      todo := todo - {price};
      forall q ensures multiset(xs)[q] == if q in levels && q !in todo then Copies(levels[q], isAsk) else 0 {
        assert multiset(xs)[q] == multiset(prev)[q] + (if q == price then Copies(size, isAsk) else 0);
      }
    }
    ExpansionCount(levels, isAsk);
    assert forall q :: multiset(xs)[q] == Expansion(levels, isAsk)[q];
  }
}
