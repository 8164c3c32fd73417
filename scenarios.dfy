/** Worked cases of the trader on small books. */
module Scenarios {
  import opened Market
  import opened Sorting
  import opened Statistics
  import opened History
  import opened Taker

  /** The asks below the bound, cheapest first. */
  lemma AsksExample()
    ensures AsksBelow(map[10 := -2, 11 := -4, 13 := -1], 12.0) == [10, 11]
  {
    var sell := map[10 := -2, 11 := -4, 13 := -1];
    assert (set p | p in sell && (p as real) < 12.0) == {10, 11};
    assert multiset({10, 11}) == multiset([10, 11]);
    SortOfAscending([10, 11]);
  }

  /** Capacity 5 against asks of 2 at 10 and 4 at 11 below a bound of 12:
      the level at 10 is taken whole, the one at 11 in part, nothing is posted,
      and the ask at 13 is left alone. */
  lemma BuyExample()
    ensures BuyLeg("PEARLS", map[10 := -2, 11 := -4, 13 := -1], 5, 12.0) ==
      [Order("PEARLS", 10.0, 2), Order("PEARLS", 11.0, 3)]
  {
    var sell := map[10 := -2, 11 := -4, 13 := -1];
    AsksExample();
    assert Volumes(sell, [10, 11]) == [-2, -4];
    assert BuyLeg("PEARLS", sell, 5, 12.0) == BuyWalk("PEARLS", [10, 11], [-2, -4], 5, 12.0);
  }

  /** A thin book: 1 at 10 below a bound of 12 with capacity 5 takes the level
      and posts the remaining 4 at the bound. */
  lemma BuyPostExample()
    ensures BuyLeg("BANANAS", map[10 := -1], 5, 12.0) ==
      [Order("BANANAS", 10.0, 1), Order("BANANAS", 12.0, 4)]
  {
    var sell := map[10 := -1];
    assert (set p | p in sell && (p as real) < 12.0) == {10};
    assert multiset({10}) == multiset([10]);
    SortOfAscending([10]);
    assert Volumes(sell, [10]) == [-1];
    assert BuyLeg("BANANAS", sell, 5, 12.0) == BuyWalk("BANANAS", [10], [-1], 5, 12.0);
  }

  /** A level of size zero below the bound still yields an order, of size
      zero, before the capacity is posted at the bound. */
  lemma ZeroLevelExample()
    ensures BuyLeg("COCONUTS", map[10 := 0], 5, 12.0) ==
      [Order("COCONUTS", 10.0, 0), Order("COCONUTS", 12.0, 5)]
  {
    var sell := map[10 := 0];
    assert (set p | p in sell && (p as real) < 12.0) == {10};
    assert multiset({10}) == multiset([10]);
    SortOfAscending([10]);
    assert Volumes(sell, [10]) == [0];
    assert BuyLeg("COCONUTS", sell, 5, 12.0) == BuyWalk("COCONUTS", [10], [0], 5, 12.0);
  }

  lemma BidsExample()
    ensures BidsAbove(map[12 := 5, 13 := 5], 11.0) == [12, 13]
  {
    var buy := map[12 := 5, 13 := 5];
    assert (set p | p in buy && (p as real) > 11.0) == {12, 13};
    assert multiset({12, 13}) == multiset([12, 13]);
    SortOfAscending([12, 13]);
  }

  /** The sell walk starts at the lowest qualifying bid: with capacity 5 and
      bids of 5 at 12 and at 13, all 5 are sold at 12 although 13 is better. */
  lemma SellCheapestFirstExample()
    ensures SellLeg("PEARLS", map[12 := 5, 13 := 5], 5, 11.0) == [Order("PEARLS", 12.0, -5)]
  {
    var buy := map[12 := 5, 13 := 5];
    BidsExample();
    assert Volumes(buy, [12, 13]) == [5, 5];
    assert SellLeg("PEARLS", buy, 5, 11.0) == SellWalk("PEARLS", [12, 13], [5, 5], 5, 11.0);
  }

  /** The fair price of a book with 3 offered at 10 and 2 bid at 8 is the
      median of 8, 8, 10, 10, 10. */
  lemma FairPriceExample()
    ensures FairPrice(OrderDepth(map[10 := -3], map[8 := 2])) == Ok(10.0)
  {
    var depth := OrderDepth(map[10 := -3], map[8 := 2]);
    var data := Expansion(depth.buyOrders, false) + Expansion(depth.sellOrders, true);
    ExpansionCount(depth.buyOrders, false);
    ExpansionCount(depth.sellOrders, true);
    assert data == multiset{8, 8, 10, 10, 10} by {
      forall q ensures data[q] == multiset{8, 8, 10, 10, 10}[q] {
        if q != 8 && q != 10 {
          assert q !in depth.buyOrders && q !in depth.sellOrders;
        }
      }
    }
    MedianMajority(data, 10);
  }
}
