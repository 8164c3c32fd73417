/** The liquidity taker/maker of `Trader.stationary_good` (trading_algo.py,
    lines 46-90) as functions of the book, the capacity and the bounds. */
module Taker {
  import opened Market
  import opened Sorting

  function Max(a: int, b: int): int { if a < b then b else a }
  function Min(a: int, b: int): int { if a < b then a else b }

  function SumInts(s: seq<int>): int
  {
    if s == [] then 0 else s[0] + SumInts(s[1..])
  }

  /** The asks priced strictly below `lb`, cheapest first (line 49). */
  function AsksBelow(sell: map<int, int>, lb: real): seq<int>
  {
    Sort(multiset(set p | p in sell && (p as real) < lb))
  }

  /** The bids priced strictly above `ub`, cheapest first (line 70): the sort
      is not reversed, so the walk starts at the lowest qualifying bid. */
  function BidsAbove(buy: map<int, int>, ub: real): seq<int>
  {
    Sort(multiset(set p | p in buy && (p as real) > ub))
  }

  lemma AsksBelowLevels(sell: map<int, int>, lb: real)
    ensures StrictlyAscending(AsksBelow(sell, lb))
    ensures forall p :: p in AsksBelow(sell, lb) <==> p in sell && (p as real) < lb
  {
    SortSetStrict(set p | p in sell && (p as real) < lb);
  }

  lemma BidsAboveLevels(buy: map<int, int>, ub: real)
    ensures StrictlyAscending(BidsAbove(buy, ub))
    ensures forall p :: p in BidsAbove(buy, ub) <==> p in buy && (p as real) > ub
  {
    SortSetStrict(set p | p in buy && (p as real) > ub);
  }

  /** The sizes resting at `prices`, in the same order (lines 50 and 71). */
  function Volumes(levels: map<int, int>, prices: seq<int>): (v: seq<int>)
    requires forall i :: 0 <= i < |prices| ==> prices[i] in levels
    ensures |v| == |prices|
  {
    if prices == [] then [] else [levels[prices[0]]] + Volumes(levels, prices[1..])
  }

  /** The i-th volume is the size resting at the i-th price. */
  lemma {:induction false} VolumesAt(levels: map<int, int>, prices: seq<int>)
    requires forall i :: 0 <= i < |prices| ==> prices[i] in levels
    ensures forall i :: 0 <= i < |prices| ==> Volumes(levels, prices)[i] == levels[prices[i]]
  {
    if prices != [] {
      VolumesAt(levels, prices[1..]);
    }
  }

  /** Buy walk of lines 55-65: `limit` is the running capacity and `vols` the
      (negative) ask sizes at `prices`. */
  function BuyTakes(product: string, prices: seq<int>, vols: seq<int>, limit: int): seq<Order>
    requires |prices| == |vols|
  {
    if prices == [] then []
    else
      var now :=
        if limit + vols[0] > 0 then [Order(product, prices[0] as real, -vols[0])]
        else if limit > 0 then [Order(product, prices[0] as real, limit)]
        else [];
      now + BuyTakes(product, prices[1..], vols[1..], limit + vols[0])
  }

  /** Sell walk of lines 76-86, against (positive) bid sizes. */
  function SellTakes(product: string, prices: seq<int>, vols: seq<int>, limit: int): seq<Order>
    requires |prices| == |vols|
  {
    if prices == [] then []
    else
      var now :=
        if limit - vols[0] > 0 then [Order(product, prices[0] as real, -vols[0])]
        else if limit > 0 then [Order(product, prices[0] as real, -limit)]
        else [];
      now + SellTakes(product, prices[1..], vols[1..], limit - vols[0])
  }

  /** Lines 55-68: the buy walk, then the capacity left over (the running
      `limit` after the loop) posted at `lb`. */
  function BuyWalk(product: string, prices: seq<int>, vols: seq<int>, capacity: int, lb: real): seq<Order>
    requires |prices| == |vols|
  {
    var left := capacity + SumInts(vols);
    BuyTakes(product, prices, vols, capacity) + (if left > 0 then [Order(product, lb, left)] else [])
  }

  /** Lines 76-89: the sell walk, then what is left posted at `ub`. */
  function SellWalk(product: string, prices: seq<int>, vols: seq<int>, capacity: int, ub: real): seq<Order>
    requires |prices| == |vols|
  {
    var left := capacity - SumInts(vols);
    SellTakes(product, prices, vols, capacity) + (if left > 0 then [Order(product, ub, -left)] else [])
  }

  /** The buy leg (lines 49-68). */
  function BuyLeg(product: string, sell: map<int, int>, capacity: int, lb: real): seq<Order>
  {
    var asks := AsksBelow(sell, lb);
    AsksBelowLevels(sell, lb);
    BuyWalk(product, asks, Volumes(sell, asks), capacity, lb)
  }

  /** The sell leg (lines 70-89). */
  function SellLeg(product: string, buy: map<int, int>, capacity: int, ub: real): seq<Order>
  {
    var bids := BidsAbove(buy, ub);
    BidsAboveLevels(buy, ub);
    SellWalk(product, bids, Volumes(buy, bids), capacity, ub)
  }

  /** The batch is the buy leg followed by the sell leg. */
  lemma StationaryOrdersSplit(product: string, depth: OrderDepth, limit: int, position: int, lb: real, ub: real,
                              buys: seq<Order>, sells: seq<Order>)
    requires buys == BuyLeg(product, depth.sellOrders, limit - position, lb)
    requires sells == SellLeg(product, depth.buyOrders, limit + position, ub)
    ensures StationaryOrders(product, depth, limit, position, lb, ub) == buys + sells
  {
  }

  /** All orders of one `stationary_good` call: the buy leg, then the sell leg. */
  function StationaryOrders(product: string, depth: OrderDepth, limit: int, position: int, lb: real, ub: real): seq<Order>
  {
    BuyLeg(product, depth.sellOrders, limit - position, lb)
      + SellLeg(product, depth.buyOrders, limit + position, ub)
  }

  predicate AllNegative(vols: seq<int>)
  {
    forall i :: 0 <= i < |vols| ==> vols[i] < 0
  }

  predicate AllPositive(vols: seq<int>)
  {
    forall i :: 0 <= i < |vols| ==> vols[i] > 0
  }

  lemma {:induction false} SumOfNegatives(vols: seq<int>)
    requires AllNegative(vols)
    ensures SumInts(vols) <= 0
    ensures vols != [] ==> SumInts(vols) <= vols[0]
  {
    if vols != [] {
      SumOfNegatives(vols[1..]);
    }
  }

  /** The first step of the buy walk, and the capacity it leaves. */
  lemma BuyTakesStep(product: string, prices: seq<int>, vols: seq<int>, limit: int)
    requires |prices| == |vols| && prices != []
    ensures BuyTakes(product, prices, vols, limit) ==
      (if limit + vols[0] > 0 then [Order(product, prices[0] as real, -vols[0])]
       else if limit > 0 then [Order(product, prices[0] as real, limit)]
       else []) + BuyTakes(product, prices[1..], vols[1..], limit + vols[0])
  {
  }

  /** The first step of the sell walk, and the capacity it leaves. */
  lemma SellTakesStep(product: string, prices: seq<int>, vols: seq<int>, limit: int)
    requires |prices| == |vols| && prices != []
    ensures SellTakes(product, prices, vols, limit) ==
      (if limit - vols[0] > 0 then [Order(product, prices[0] as real, -vols[0])]
       else if limit > 0 then [Order(product, prices[0] as real, -limit)]
       else []) + SellTakes(product, prices[1..], vols[1..], limit - vols[0])
  {
  }

  /** Against negative ask sizes the buy walk emits nothing once the capacity
      is used up, and takes every level whole while capacity outlasts the depth. */
  lemma {:induction false} BuyTakesExhausted(product: string, prices: seq<int>, vols: seq<int>, limit: int)
    requires |prices| == |vols| && AllNegative(vols)
    ensures limit <= 0 ==> BuyTakes(product, prices, vols, limit) == []
    ensures limit + SumInts(vols) > 0 ==> |BuyTakes(product, prices, vols, limit)| == |prices|
  {
    if prices != [] {
      BuyTakesExhausted(product, prices[1..], vols[1..], limit + vols[0]);
      SumOfNegatives(vols[1..]);
    }
  }

  /** The buy walk's orders hit a prefix of the levels in the order given, each
      for a positive amount of at most the level's size and every one but the
      last for the whole level. */
  lemma {:induction false} BuyTakesPrefix(product: string, prices: seq<int>, vols: seq<int>, limit: int)
    requires |prices| == |vols| && AllNegative(vols)
    ensures var t := BuyTakes(product, prices, vols, limit);
      && |t| <= |prices|
      && (forall i :: 0 <= i < |t| ==>
            t[i].product == product && t[i].price == prices[i] as real && 0 < t[i].quantity <= -vols[i])
      && (forall i :: 0 <= i < |t| - 1 ==> t[i].quantity == -vols[i])
  {
    if prices != [] {
      var rest := BuyTakes(product, prices[1..], vols[1..], limit + vols[0]);
      BuyTakesPrefix(product, prices[1..], vols[1..], limit + vols[0]);
      BuyTakesStep(product, prices, vols, limit);
      if limit + vols[0] <= 0 {
        BuyTakesExhausted(product, prices[1..], vols[1..], limit + vols[0]);
      }
    }
  }

  /** Together the buy walk's orders buy the capacity or the whole depth,
      whichever is smaller (nothing when there is no capacity). */
  lemma {:induction false} BuyTakesTotal(product: string, prices: seq<int>, vols: seq<int>, limit: int)
    requires |prices| == |vols| && AllNegative(vols)
    ensures TotalQuantity(BuyTakes(product, prices, vols, limit)) == Min(Max(limit, 0), -SumInts(vols))
  {
    if prices != [] {
      var rest := BuyTakes(product, prices[1..], vols[1..], limit + vols[0]);
      BuyTakesTotal(product, prices[1..], vols[1..], limit + vols[0]);
      BuyTakesStep(product, prices, vols, limit);
      SumOfNegatives(vols[1..]);
      if limit + vols[0] > 0 {
        TotalQuantityAppend([Order(product, prices[0] as real, -vols[0])], rest);
      } else {
        BuyTakesExhausted(product, prices[1..], vols[1..], limit + vols[0]);
        assert rest == [];
      }
    }
  }

  /** When capacity is left after the walk, every level was taken whole. */
  lemma {:induction false} BuyTakesWhole(product: string, prices: seq<int>, vols: seq<int>, limit: int)
    requires |prices| == |vols| && AllNegative(vols)
    requires limit + SumInts(vols) > 0
    ensures |BuyTakes(product, prices, vols, limit)| == |prices|
    ensures forall i :: 0 <= i < |prices| ==> BuyTakes(product, prices, vols, limit)[i].quantity == -vols[i]
  {
    BuyTakesExhausted(product, prices, vols, limit);
    if prices != [] {
      SumOfNegatives(vols[1..]);
      BuyTakesWhole(product, prices[1..], vols[1..], limit + vols[0]);
      BuyTakesStep(product, prices, vols, limit);
    }
  }

  /** The same orders with every quantity negated. */
  function Negated(orders: seq<Order>): (r: seq<Order>)
    ensures |r| == |orders|
    ensures forall i :: 0 <= i < |r| ==> r[i] == orders[i].(quantity := -orders[i].quantity)
  {
    if orders == [] then [] else [orders[0].(quantity := -orders[0].quantity)] + Negated(orders[1..])
  }

  function NegatedAll(vols: seq<int>): (r: seq<int>)
    ensures |r| == |vols|
    ensures forall i :: 0 <= i < |r| ==> r[i] == -vols[i]
  {
    if vols == [] then [] else [-vols[0]] + NegatedAll(vols[1..])
  }

  lemma {:induction false} TotalQuantityNegated(orders: seq<Order>)
    ensures TotalQuantity(Negated(orders)) == -TotalQuantity(orders)
  {
    if orders != [] {
      TotalQuantityNegated(orders[1..]);
      assert Negated(orders)[1..] == Negated(orders[1..]);
    }
  }

  lemma {:induction false} SumNegatedAll(vols: seq<int>)
    ensures SumInts(NegatedAll(vols)) == -SumInts(vols)
  {
    if vols != [] {
      SumNegatedAll(vols[1..]);
      assert NegatedAll(vols)[1..] == NegatedAll(vols[1..]);
    }
  }

  /** The sell walk is the buy walk mirrored: selling against bid sizes `vols`
      emits the buy walk's orders against sizes `-vols`, with quantities negated. */
  lemma {:induction false} SellTakesMirrorsBuy(product: string, prices: seq<int>, vols: seq<int>, limit: int)
    requires |prices| == |vols|
    ensures SellTakes(product, prices, vols, limit) == Negated(BuyTakes(product, prices, NegatedAll(vols), limit))
  {
    if prices != [] {
      var rest := BuyTakes(product, prices[1..], NegatedAll(vols[1..]), limit - vols[0]);
      var srest := SellTakes(product, prices[1..], vols[1..], limit - vols[0]);
      assert srest == Negated(rest) by {
        SellTakesMirrorsBuy(product, prices[1..], vols[1..], limit - vols[0]);
      }
      var first := if limit - vols[0] > 0 then [Order(product, prices[0] as real, vols[0])]
        else if limit > 0 then [Order(product, prices[0] as real, limit)] else [];
      var sfirst := if limit - vols[0] > 0 then [Order(product, prices[0] as real, -vols[0])]
        else if limit > 0 then [Order(product, prices[0] as real, -limit)] else [];
      assert sfirst == Negated(first) by {
        if limit - vols[0] > 0 {
          assert first == [Order(product, prices[0] as real, vols[0])];
        } else if limit > 0 {
          assert first == [Order(product, prices[0] as real, limit)];
        } else {
          assert first == [];
        }
      }
      BuyTakesNegatedStep(product, prices, vols, limit);
      assert SellTakes(product, prices, vols, limit) == sfirst + srest by {
        SellTakesStep(product, prices, vols, limit);
      }
      NegatedAppend(first, rest);
    }
  }

  /** The first step of the buy walk against negated sizes. */
  lemma BuyTakesNegatedStep(product: string, prices: seq<int>, vols: seq<int>, limit: int)
    requires |prices| == |vols| && prices != []
    ensures BuyTakes(product, prices, NegatedAll(vols), limit) ==
      (if limit - vols[0] > 0 then [Order(product, prices[0] as real, vols[0])]
       else if limit > 0 then [Order(product, prices[0] as real, limit)]
       else []) + BuyTakes(product, prices[1..], NegatedAll(vols[1..]), limit - vols[0])
  {
    var u := NegatedAll(vols);
    assert u[0] == -vols[0];
    assert u[1..] == NegatedAll(vols[1..]);
    BuyTakesStep(product, prices, u, limit);
  }

  lemma NegatedAppend(a: seq<Order>, b: seq<Order>)
    ensures Negated(a + b) == Negated(a) + Negated(b)
  {
    var l, r := Negated(a + b), Negated(a) + Negated(b);
    forall i | 0 <= i < |l| ensures l[i] == r[i] {
      if i < |a| {
        assert (a + b)[i] == a[i];
      } else {
        assert (a + b)[i] == b[i - |a|];
      }
    }
    assert l == r;
  }

  /** The sell walk's orders hit a prefix of the levels in the order given,
      each selling a positive amount of at most the level's size and every one
      but the last the whole level. */
  lemma SellTakesPrefix(product: string, prices: seq<int>, vols: seq<int>, limit: int)
    requires |prices| == |vols| && AllPositive(vols)
    ensures var t := SellTakes(product, prices, vols, limit);
      && |t| <= |prices|
      && (forall i :: 0 <= i < |t| ==>
            t[i].product == product && t[i].price == prices[i] as real && 0 < -t[i].quantity <= vols[i])
      && (forall i :: 0 <= i < |t| - 1 ==> -t[i].quantity == vols[i])
  {
    var u := NegatedAll(vols);
    assert AllNegative(u);
    SellTakesMirrorsBuy(product, prices, vols, limit);
    BuyTakesPrefix(product, prices, u, limit);
  }

  /** Total size resting on the asks priced below `lb`. */
  function DepthBelow(sell: map<int, int>, lb: real): int
  {
    AsksBelowLevels(sell, lb);
    -SumInts(Volumes(sell, AsksBelow(sell, lb)))
  }

  /** Total size resting on the bids priced above `ub`. */
  function DepthAbove(buy: map<int, int>, ub: real): int
  {
    BidsAboveLevels(buy, ub);
    SumInts(Volumes(buy, BidsAbove(buy, ub)))
  }

  /** The buy walk with its post buys exactly the capacity, or nothing when
      there is none. */
  lemma BuyWalkTotal(product: string, prices: seq<int>, vols: seq<int>, capacity: int, lb: real)
    requires |prices| == |vols| && AllNegative(vols)
    ensures TotalQuantity(BuyWalk(product, prices, vols, capacity, lb)) == Max(capacity, 0)
  {
    var t := BuyTakes(product, prices, vols, capacity);
    var left := capacity + SumInts(vols);
    var r := if left > 0 then [Order(product, lb, left)] else [];
    BuyTakesTotal(product, prices, vols, capacity);
    TotalQuantityAppend(t, r);
    SumOfNegatives(vols);
  }

  /** The orders of the buy walk with its post, for levels below `lb` listed
      in strictly ascending price: each buys a positive amount; the i-th one
      not at `lb` is at the i-th level for at most its size; each one followed
      by a taker order takes its whole level at a lower price. */
  lemma BuyWalkTakers(product: string, prices: seq<int>, vols: seq<int>, capacity: int, lb: real)
    requires |prices| == |vols| && AllNegative(vols)
    requires StrictlyAscending(prices) && forall i :: 0 <= i < |prices| ==> (prices[i] as real) < lb
    ensures var b := BuyWalk(product, prices, vols, capacity, lb);
      && (forall i :: 0 <= i < |b| ==> b[i].product == product && b[i].quantity > 0)
      && (forall i :: 0 <= i < |b| && b[i].price != lb ==>
            i < |prices| && b[i].price == prices[i] as real && b[i].quantity <= -vols[i])
      && (forall i, j :: 0 <= i < j < |b| && b[j].price != lb ==>
            b[i].price < b[j].price && i < |prices| && b[i].quantity == -vols[i])
  {
    var t := BuyTakes(product, prices, vols, capacity);
    var left := capacity + SumInts(vols);
    var b := BuyWalk(product, prices, vols, capacity, lb);
    BuyTakesPrefix(product, prices, vols, capacity);
    assert forall i :: 0 <= i < |t| ==> b[i] == t[i];
    forall i, j | 0 <= i < j < |b| && b[j].price != lb
      ensures b[i].price < b[j].price && i < |prices| && b[i].quantity == -vols[i]
    {
      assert j < |t|;
    }
  }

  /** The buy walk posts one order at `lb`, last, for the capacity the levels
      leave, if and only if some is left. */
  lemma BuyWalkPost(product: string, prices: seq<int>, vols: seq<int>, capacity: int, lb: real)
    requires |prices| == |vols| && AllNegative(vols)
    requires forall i :: 0 <= i < |prices| ==> (prices[i] as real) < lb
    ensures var b, depth := BuyWalk(product, prices, vols, capacity, lb), -SumInts(vols);
      && (forall i :: 0 <= i < |b| ==> (b[i].price == lb <==> i == |b| - 1 && capacity > depth))
      && (capacity > depth ==> |b| > 0 && b[|b| - 1] == Order(product, lb, capacity - depth))
  {
    var t := BuyTakes(product, prices, vols, capacity);
    var b := BuyWalk(product, prices, vols, capacity, lb);
    BuyTakesPrefix(product, prices, vols, capacity);
    assert forall i :: 0 <= i < |t| ==> b[i] == t[i];
  }

  /** The sell walk with its post sells exactly the capacity, or nothing. */
  lemma SellWalkTotal(product: string, prices: seq<int>, vols: seq<int>, capacity: int, ub: real)
    requires |prices| == |vols| && AllPositive(vols)
    ensures TotalQuantity(SellWalk(product, prices, vols, capacity, ub)) == -Max(capacity, 0)
  {
    var t := SellTakes(product, prices, vols, capacity);
    var u := NegatedAll(vols);
    var left := capacity - SumInts(vols);
    var r := if left > 0 then [Order(product, ub, -left)] else [];
    SellTakesMirrorsBuy(product, prices, vols, capacity);
    BuyTakesTotal(product, prices, u, capacity);
    TotalQuantityNegated(BuyTakes(product, prices, u, capacity));
    SumNegatedAll(vols);
    SumOfNegatives(u);
    TotalQuantityAppend(t, r);
  }

  /** The orders of the sell walk with its post, for levels above `ub` listed
      in strictly ascending price: each sells; the i-th one not at `ub` is at
      the i-th level for at most its size; each one followed by a taker order
      empties its whole level at a lower price. */
  lemma SellWalkTakers(product: string, prices: seq<int>, vols: seq<int>, capacity: int, ub: real)
    requires |prices| == |vols| && AllPositive(vols)
    requires StrictlyAscending(prices) && forall i :: 0 <= i < |prices| ==> (prices[i] as real) > ub
    ensures var b := SellWalk(product, prices, vols, capacity, ub);
      && (forall i :: 0 <= i < |b| ==> b[i].product == product && b[i].quantity < 0)
      && (forall i :: 0 <= i < |b| && b[i].price != ub ==>
            i < |prices| && b[i].price == prices[i] as real && -b[i].quantity <= vols[i])
      && (forall i, j :: 0 <= i < j < |b| && b[j].price != ub ==>
            b[i].price < b[j].price && i < |prices| && -b[i].quantity == vols[i])
  {
    var t := SellTakes(product, prices, vols, capacity);
    var b := SellWalk(product, prices, vols, capacity, ub);
    SellTakesPrefix(product, prices, vols, capacity);
    assert forall i :: 0 <= i < |t| ==> b[i] == t[i];
    forall i, j | 0 <= i < j < |b| && b[j].price != ub
      ensures b[i].price < b[j].price && i < |prices| && -b[i].quantity == vols[i]
    {
      assert j < |t|;
    }
  }

  /** The sell walk posts one order at `ub`, last, for the capacity the levels
      leave, if and only if some is left. */
  lemma SellWalkPost(product: string, prices: seq<int>, vols: seq<int>, capacity: int, ub: real)
    requires |prices| == |vols| && AllPositive(vols)
    requires forall i :: 0 <= i < |prices| ==> (prices[i] as real) > ub
    ensures var b, depth := SellWalk(product, prices, vols, capacity, ub), SumInts(vols);
      && (forall i :: 0 <= i < |b| ==> (b[i].price == ub <==> i == |b| - 1 && capacity > depth))
      && (capacity > depth ==> |b| > 0 && b[|b| - 1] == Order(product, ub, -(capacity - depth)))
  {
    var t := SellTakes(product, prices, vols, capacity);
    var b := SellWalk(product, prices, vols, capacity, ub);
    SellTakesPrefix(product, prices, vols, capacity);
    assert forall i :: 0 <= i < |t| ==> b[i] == t[i];
  }

  /** The buy leg against a book whose ask sizes are negative buys exactly the
      capacity, or nothing when there is none. */
  lemma BuyLegTotal(product: string, sell: map<int, int>, capacity: int, lb: real)
    requires forall p :: p in sell ==> sell[p] < 0
    ensures TotalQuantity(BuyLeg(product, sell, capacity, lb)) == Max(capacity, 0)
  {
    var asks := AsksBelow(sell, lb);
    AsksBelowLevels(sell, lb);
    var vols := Volumes(sell, asks);
    AsksNegative(sell, lb);
    assert BuyLeg(product, sell, capacity, lb) == BuyWalk(product, asks, vols, capacity, lb);
    BuyWalkTotal(product, asks, vols, capacity, lb);
  }

  lemma AsksNegative(sell: map<int, int>, lb: real)
    requires forall p :: p in sell ==> sell[p] < 0
    ensures forall i :: 0 <= i < |AsksBelow(sell, lb)| ==> AsksBelow(sell, lb)[i] in sell
    ensures AllNegative(Volumes(sell, AsksBelow(sell, lb)))
    ensures StrictlyAscending(AsksBelow(sell, lb))
    ensures forall i :: 0 <= i < |AsksBelow(sell, lb)| ==> (AsksBelow(sell, lb)[i] as real) < lb
  {
    var asks := AsksBelow(sell, lb);
    AsksBelowLevels(sell, lb);
    VolumesAt(sell, asks);
    forall i | 0 <= i < |asks| ensures (asks[i] as real) < lb && sell[asks[i]] < 0 {
      assert asks[i] in asks;
    }
  }

  lemma BidsPositive(buy: map<int, int>, ub: real)
    requires forall p :: p in buy ==> buy[p] > 0
    ensures forall i :: 0 <= i < |BidsAbove(buy, ub)| ==> BidsAbove(buy, ub)[i] in buy
    ensures AllPositive(Volumes(buy, BidsAbove(buy, ub)))
    ensures StrictlyAscending(BidsAbove(buy, ub))
    ensures forall i :: 0 <= i < |BidsAbove(buy, ub)| ==> (BidsAbove(buy, ub)[i] as real) > ub
  {
    var bids := BidsAbove(buy, ub);
    BidsAboveLevels(buy, ub);
    VolumesAt(buy, bids);
    forall i | 0 <= i < |bids| ensures (bids[i] as real) > ub && buy[bids[i]] > 0 {
      assert bids[i] in bids;
    }
  }

  /** `b` buys, each order for a positive amount of `product`; the i-th
      order not at `bound` is at the i-th of `prices`, for at most the size
      resting there; and every taker order followed by another taker order
      takes its whole level, at a lower price. */
  predicate BuysAtLevels(b: seq<Order>, product: string, levels: map<int, int>, prices: seq<int>, bound: real)
  {
    && (forall i :: 0 <= i < |b| ==> b[i].product == product && b[i].quantity > 0)
    && (forall i :: 0 <= i < |b| && b[i].price != bound ==>
          i < |prices| && b[i].price == prices[i] as real && prices[i] in levels && b[i].quantity <= -levels[prices[i]])
    && (forall i, j :: 0 <= i < j < |b| && b[j].price != bound ==>
          b[i].price < b[j].price && i < |prices| && prices[i] in levels && b[i].quantity == -levels[prices[i]])
  }

  /** The mirror image for selling: every order sells, and the taker orders
      walk `prices` in the order given, emptying whole levels until the last. */
  predicate SellsAtLevels(b: seq<Order>, product: string, levels: map<int, int>, prices: seq<int>, bound: real)
  {
    && (forall i :: 0 <= i < |b| ==> b[i].product == product && b[i].quantity < 0)
    && (forall i :: 0 <= i < |b| && b[i].price != bound ==>
          i < |prices| && b[i].price == prices[i] as real && prices[i] in levels && -b[i].quantity <= levels[prices[i]])
    && (forall i, j :: 0 <= i < j < |b| && b[j].price != bound ==>
          b[i].price < b[j].price && i < |prices| && prices[i] in levels && -b[i].quantity == levels[prices[i]])
  }

  /** The buy walk over levels of a book, listed in strictly ascending price
      below `lb`, buys at those levels in that order. */
  lemma BuyWalkAtLevels(product: string, sell: map<int, int>, asks: seq<int>, capacity: int, lb: real)
    requires forall p :: p in sell ==> sell[p] < 0
    requires forall i :: 0 <= i < |asks| ==> asks[i] in sell && (asks[i] as real) < lb
    requires StrictlyAscending(asks)
    ensures BuysAtLevels(BuyWalk(product, asks, Volumes(sell, asks), capacity, lb), product, sell, asks, lb)
  {
    var vols := Volumes(sell, asks);
    VolumesAt(sell, asks);
    assert AllNegative(vols);
    var b := BuyWalk(product, asks, vols, capacity, lb);
    BuyWalkTakers(product, asks, vols, capacity, lb);
  }

  /** The taker orders of the buy leg walk the asks below `lb` cheapest first. */
  lemma BuyLegTakers(product: string, sell: map<int, int>, capacity: int, lb: real)
    requires forall p :: p in sell ==> sell[p] < 0
    ensures BuysAtLevels(BuyLeg(product, sell, capacity, lb), product, sell, AsksBelow(sell, lb), lb)
  {
    AsksNegative(sell, lb);
    BuyWalkAtLevels(product, sell, AsksBelow(sell, lb), capacity, lb);
  }

  /** The buy leg posts one order at exactly `lb`, last, for the capacity the
      asks below `lb` leave, if and only if some is left. */
  lemma BuyLegPost(product: string, sell: map<int, int>, capacity: int, lb: real)
    requires forall p :: p in sell ==> sell[p] < 0
    ensures var b, depth := BuyLeg(product, sell, capacity, lb), DepthBelow(sell, lb);
      && (forall i :: 0 <= i < |b| ==> (b[i].price == lb <==> i == |b| - 1 && capacity > depth))
      && (capacity > depth ==> |b| > 0 && b[|b| - 1] == Order(product, lb, capacity - depth))
  {
    var asks := AsksBelow(sell, lb);
    AsksBelowLevels(sell, lb);
    var vols := Volumes(sell, asks);
    AsksNegative(sell, lb);
    assert BuyLeg(product, sell, capacity, lb) == BuyWalk(product, asks, vols, capacity, lb);
    assert DepthBelow(sell, lb) == -SumInts(vols);
    BuyWalkPost(product, asks, vols, capacity, lb);
  }

  /** The sell leg against a book whose bid sizes are positive sells exactly
      the capacity, or nothing when there is none. */
  lemma SellLegTotal(product: string, buy: map<int, int>, capacity: int, ub: real)
    requires forall p :: p in buy ==> buy[p] > 0
    ensures TotalQuantity(SellLeg(product, buy, capacity, ub)) == -Max(capacity, 0)
  {
    var bids := BidsAbove(buy, ub);
    BidsAboveLevels(buy, ub);
    var vols := Volumes(buy, bids);
    BidsPositive(buy, ub);
    assert SellLeg(product, buy, capacity, ub) == SellWalk(product, bids, vols, capacity, ub);
    SellWalkTotal(product, bids, vols, capacity, ub);
  }

  /** The sell walk over levels of a book, listed in strictly ascending price
      above `ub`, sells at those levels in that order. */
  lemma SellWalkAtLevels(product: string, buy: map<int, int>, bids: seq<int>, capacity: int, ub: real)
    requires forall p :: p in buy ==> buy[p] > 0
    requires forall i :: 0 <= i < |bids| ==> bids[i] in buy && (bids[i] as real) > ub
    requires StrictlyAscending(bids)
    ensures SellsAtLevels(SellWalk(product, bids, Volumes(buy, bids), capacity, ub), product, buy, bids, ub)
  {
    var vols := Volumes(buy, bids);
    VolumesAt(buy, bids);
    assert AllPositive(vols);
    SellWalkTakers(product, bids, vols, capacity, ub);
  }

  /** The taker orders of the sell leg walk the bids above `ub` LOWEST first
      (the sort is ascending). */
  lemma SellLegTakers(product: string, buy: map<int, int>, capacity: int, ub: real)
    requires forall p :: p in buy ==> buy[p] > 0
    ensures SellsAtLevels(SellLeg(product, buy, capacity, ub), product, buy, BidsAbove(buy, ub), ub)
  {
    BidsPositive(buy, ub);
    SellWalkAtLevels(product, buy, BidsAbove(buy, ub), capacity, ub);
  }

  /** The sell leg posts one order at exactly `ub`, last, for the capacity the
      bids above `ub` leave, if and only if some is left. */
  lemma SellLegPost(product: string, buy: map<int, int>, capacity: int, ub: real)
    requires forall p :: p in buy ==> buy[p] > 0
    ensures var b, depth := SellLeg(product, buy, capacity, ub), DepthAbove(buy, ub);
      && (forall i :: 0 <= i < |b| ==> (b[i].price == ub <==> i == |b| - 1 && capacity > depth))
      && (capacity > depth ==> |b| > 0 && b[|b| - 1] == Order(product, ub, -(capacity - depth)))
  {
    var bids := BidsAbove(buy, ub);
    BidsAboveLevels(buy, ub);
    var vols := Volumes(buy, bids);
    BidsPositive(buy, ub);
    assert SellLeg(product, buy, capacity, ub) == SellWalk(product, bids, vols, capacity, ub);
    assert DepthAbove(buy, ub) == SumInts(vols);
    SellWalkPost(product, bids, vols, capacity, ub);
  }

  /** Every order buys a positive amount. */
  predicate AllBuy(orders: seq<Order>)
  {
    forall i :: 0 <= i < |orders| ==> orders[i].quantity > 0
  }

  /** Every order sells a positive amount. */
  predicate AllSell(orders: seq<Order>)
  {
    forall i :: 0 <= i < |orders| ==> orders[i].quantity < 0
  }

  /** Orders that all buy total a positive amount unless there are none... */
  lemma {:induction false} BuysTotalPositive(orders: seq<Order>)
    requires AllBuy(orders)
    ensures orders != [] ==> TotalQuantity(orders) > 0
  {
    if orders != [] {
      assert AllBuy(orders[1..]) by {
        forall i | 0 <= i < |orders[1..]| ensures orders[1..][i].quantity > 0 {
          assert orders[1..][i] == orders[i + 1];
        }
      }
      BuysTotalPositive(orders[1..]);
    }
  }

  /** ...and orders that all sell a negative one. */
  lemma {:induction false} SellsTotalNegative(orders: seq<Order>)
    requires AllSell(orders)
    ensures orders != [] ==> TotalQuantity(orders) < 0
  {
    if orders != [] {
      assert AllSell(orders[1..]) by {
        forall i | 0 <= i < |orders[1..]| ensures orders[1..][i].quantity < 0 {
          assert orders[1..][i] == orders[i + 1];
        }
      }
      SellsTotalNegative(orders[1..]);
    }
  }

  /** With no capacity left to buy, the buy leg emits no order at all. */
  lemma NoCapacityNoBuy(product: string, sell: map<int, int>, capacity: int, lb: real)
    requires forall p :: p in sell ==> sell[p] < 0
    requires capacity <= 0
    ensures BuyLeg(product, sell, capacity, lb) == []
  {
    BuyLegBuys(product, sell, capacity, lb);
    BuyLegTotal(product, sell, capacity, lb);
    BuysTotalPositive(BuyLeg(product, sell, capacity, lb));
  }

  /** With no capacity left to sell, the sell leg emits no order at all. */
  lemma NoCapacityNoSell(product: string, buy: map<int, int>, capacity: int, ub: real)
    requires forall p :: p in buy ==> buy[p] > 0
    requires capacity <= 0
    ensures SellLeg(product, buy, capacity, ub) == []
  {
    SellLegSells(product, buy, capacity, ub);
    SellLegTotal(product, buy, capacity, ub);
    SellsTotalNegative(SellLeg(product, buy, capacity, ub));
  }

  /** Every order of the buy leg buys. */
  lemma BuyLegBuys(product: string, sell: map<int, int>, capacity: int, lb: real)
    requires forall p :: p in sell ==> sell[p] < 0
    ensures AllBuy(BuyLeg(product, sell, capacity, lb))
  {
    BuyLegTakers(product, sell, capacity, lb);
  }

  /** Every order of the sell leg sells. */
  lemma SellLegSells(product: string, buy: map<int, int>, capacity: int, ub: real)
    requires forall p :: p in buy ==> buy[p] > 0
    ensures AllSell(SellLeg(product, buy, capacity, ub))
  {
    SellLegTakers(product, buy, capacity, ub);
  }

  /** The batch for one product keeps the position within the limit: buys come
      first and, all filled, take the position exactly to the limit (or leave
      it where it is when it is already beyond); the sells that follow, all
      filled, take it to minus the limit. */
  ghost predicate WithinLimit(orders: seq<Order>, limit: int, position: int)
  {
    exists k :: 0 <= k <= |orders| &&
      (forall i :: 0 <= i < k ==> orders[i].quantity > 0) &&
      (forall i :: k <= i < |orders| ==> orders[i].quantity < 0) &&
      position + TotalQuantity(orders[..k]) == (if position <= limit then limit else position) &&
      position + TotalQuantity(orders[k..]) == (if position >= -limit then -limit else position)
  }

  /** One `stationary_good` call against a book with the exchange's sign
      conventions: the buy orders come first and the sell orders after them;
      while the position is within the limit, filling every buy order would
      take it exactly to `limit` and filling every sell order exactly to
      `-limit`; outside the limit that side emits nothing. */
  lemma StationaryOrdersWithinLimit(product: string, depth: OrderDepth, limit: int, position: int, lb: real, ub: real)
    requires forall p :: p in depth.sellOrders ==> depth.sellOrders[p] < 0
    requires forall p :: p in depth.buyOrders ==> depth.buyOrders[p] > 0
    ensures WithinLimit(StationaryOrders(product, depth, limit, position, lb, ub), limit, position)
  {
    var sell, buy := depth.sellOrders, depth.buyOrders;
    AsksNegative(sell, lb);
    BidsPositive(buy, ub);
    WalksWithinLimit(product, AsksBelow(sell, lb), Volumes(sell, AsksBelow(sell, lb)),
                     BidsAbove(buy, ub), Volumes(buy, BidsAbove(buy, ub)), limit, position, lb, ub);
  }

  /** The limit argument on the two walks, for any levels with the sign
      conventions listed in strictly ascending price beyond their bounds. */
  lemma WalksWithinLimit(product: string, asks: seq<int>, askVols: seq<int>, bids: seq<int>, bidVols: seq<int>,
                         limit: int, position: int, lb: real, ub: real)
    requires |asks| == |askVols| && AllNegative(askVols)
    requires StrictlyAscending(asks) && forall i :: 0 <= i < |asks| ==> (asks[i] as real) < lb
    requires |bids| == |bidVols| && AllPositive(bidVols)
    requires StrictlyAscending(bids) && forall i :: 0 <= i < |bids| ==> (bids[i] as real) > ub
    ensures WithinLimit(BuyWalk(product, asks, askVols, limit - position, lb)
                          + SellWalk(product, bids, bidVols, limit + position, ub), limit, position)
  {
    var buys := BuyWalk(product, asks, askVols, limit - position, lb);
    var sells := SellWalk(product, bids, bidVols, limit + position, ub);
    BuyWalkTakers(product, asks, askVols, limit - position, lb);
    SellWalkTakers(product, bids, bidVols, limit + position, ub);
    BuyWalkTotal(product, asks, askVols, limit - position, lb);
    SellWalkTotal(product, bids, bidVols, limit + position, ub);
    BuysThenSells(buys + sells, buys, sells, limit, position);
  }

  /** Buys totalling the buy capacity followed by sells totalling the sell
      capacity keep the position within the limit. */
  lemma BuysThenSells(orders: seq<Order>, buys: seq<Order>, sells: seq<Order>, limit: int, position: int)
    requires orders == buys + sells
    requires AllBuy(buys) && AllSell(sells)
    requires TotalQuantity(buys) == Max(limit - position, 0)
    requires TotalQuantity(sells) == -Max(limit + position, 0)
    ensures WithinLimit(orders, limit, position)
  {
    var k := |buys|;
    assert orders[..k] == buys && orders[k..] == sells;
    assert 0 <= k <= |orders| &&
      (forall i :: 0 <= i < k ==> orders[i].quantity > 0) &&
      (forall i :: k <= i < |orders| ==> orders[i].quantity < 0) &&
      position + TotalQuantity(orders[..k]) == (if position <= limit then limit else position) &&
      position + TotalQuantity(orders[k..]) == (if position >= -limit then -limit else position);
  }
}
