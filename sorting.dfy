/** Python's `sorted` on integers, as a function of the multiset of its input. */
module Sorting {

  predicate Ascending(s: seq<int>)
  {
    forall i, j :: 0 <= i < j < |s| ==> s[i] <= s[j]
  }

  predicate StrictlyAscending(s: seq<int>)
  {
    forall i, j :: 0 <= i < j < |s| ==> s[i] < s[j]
  }

  lemma NonEmptyHasElement(s: set<int>)
    requires s != {}
    ensures exists y :: y in s
  {
    if forall y :: y !in s { assert false; }
  }

  lemma NonEmptyBagHasElement(m: multiset<int>)
    requires m != multiset{}
    ensures exists y :: y in m
  {
    if forall y :: y !in m { assert false; }
  }

  /** Every non-empty finite set of integers has a least element. */
  lemma {:induction false} HasLeast(s: set<int>)
    requires s != {}
    ensures exists m :: m in s && forall x :: x in s ==> m <= x
  {
    NonEmptyHasElement(s);
    var y :| y in s;
    if s != {y} {
      HasLeast(s - {y});
      var m :| m in s - {y} && forall x :: x in s - {y} ==> m <= x;
      var least := if y < m then y else m;
      forall x | x in s ensures least <= x {
        if x != y { assert x in s - {y}; }
      }
      assert least in s;
    } else {
      forall x | x in s ensures y <= x {
        assert x in {y};
      }
    }
  }

  /** The least element of a non-empty set. */
  function SetMin(s: set<int>): (m: int)
    requires s != {}
    ensures m in s && forall x :: x in s ==> m <= x
  {
    HasLeast(s);
    var m :| m in s && forall x :: x in s ==> m <= x; m
  }

  /** The least element of a non-empty multiset. */
  function BagMin(m: multiset<int>): (x: int)
    requires m != multiset{}
    ensures x in m && forall y :: y in m ==> x <= y
  {
    var support := set y | y in m;
    assert support != {} by {
      NonEmptyBagHasElement(m);
      var w :| w in m;
      assert w in support;
    }
    var x := SetMin(support);
    assert forall y :: y in m ==> y in support;
    x
  }

  /** The elements of `m` in ascending order, each as often as `m` holds it. */
  function Sort(m: multiset<int>): seq<int>
    decreases |m|
  {
    if m == multiset{} then []
    else
      var x := BagMin(m);
      [x] + Sort(m - multiset{x})
  }

  /** `Sort` returns an ascending arrangement of exactly the elements of `m`. */
  lemma {:induction false} SortSorted(m: multiset<int>)
    ensures multiset(Sort(m)) == m
    ensures Ascending(Sort(m))
    decreases |m|
  {
    if m != multiset{} {
      var x := BagMin(m);
      SortSorted(m - multiset{x});
      LeastFirst(x, Sort(m - multiset{x}), m);
    }
  }

  lemma LeastFirst(x: int, rest: seq<int>, m: multiset<int>)
    requires x in m && forall y :: y in m ==> x <= y
    requires multiset(rest) == m - multiset{x} && Ascending(rest)
    ensures multiset([x] + rest) == m && Ascending([x] + rest)
  {
    forall i | 0 <= i < |rest| ensures x <= rest[i] {
      assert rest[i] in multiset(rest);
    }
    assert multiset([x] + rest) == multiset{x} + multiset(rest);
  }

  /** Two ascending arrangements of the same elements are the same sequence,
      so `Sort` is the one ascending permutation of its input. */
  lemma {:induction false} AscendingUnique(a: seq<int>, b: seq<int>)
    requires Ascending(a) && Ascending(b) && multiset(a) == multiset(b)
    ensures a == b
  {
    assert |a| == |multiset(a)| && |b| == |multiset(b)|;
    if a != [] {
      LeastAgree(a, b);
      DropHead(a);
      DropHead(b);
      AscendingUnique(a[1..], b[1..]);
      assert a == [a[0]] + a[1..] && b == [b[0]] + b[1..];
    }
  }

  /** Sorting an already ascending sequence gives it back. */
  lemma SortOfAscending(s: seq<int>)
    requires Ascending(s)
    ensures Sort(multiset(s)) == s
  {
    SortSorted(multiset(s));
    AscendingUnique(Sort(multiset(s)), s);
  }

  /** Ascending arrangements of the same non-empty elements start alike. */
  lemma LeastAgree(a: seq<int>, b: seq<int>)
    requires Ascending(a) && Ascending(b) && multiset(a) == multiset(b) && a != [] && b != []
    ensures a[0] == b[0]
  {
    assert a[0] in multiset(b) && b[0] in multiset(a);
    var i :| 0 <= i < |b| && b[i] == a[0];
    var j :| 0 <= j < |a| && a[j] == b[0];
  }

  lemma DropHead(a: seq<int>)
    requires a != []
    ensures multiset(a[1..]) == multiset(a) - multiset{a[0]}
  {
    assert a == [a[0]] + a[1..];
    assert multiset(a) == multiset{a[0]} + multiset(a[1..]);
  }

  /** An element at two positions of a sequence occurs at least twice in it. */
  lemma {:induction false} TwiceAt(s: seq<int>, i: nat, j: nat)
    requires i < j < |s| && s[i] == s[j]
    ensures multiset(s)[s[i]] >= 2
  {
    var a, b, c := s[..i], s[i+1..j], s[j+1..];
    assert s == a + [s[i]] + b + [s[j]] + c;
    assert multiset(s) == multiset(a) + multiset{s[i]} + multiset(b) + multiset{s[j]} + multiset(c);
  }

  /** Sorting the keys of a dictionary lists each key once, strictly ascending. */
  lemma SortSetStrict(keys: set<int>)
    ensures StrictlyAscending(Sort(multiset(keys)))
    ensures forall x :: x in Sort(multiset(keys)) <==> x in keys
  {
    var s := Sort(multiset(keys));
    SortSorted(multiset(keys));
    forall i, j | 0 <= i < j < |s| ensures s[i] < s[j] {
      if s[i] == s[j] {
        TwiceAt(s, i, j);
        assert false;
      }
    }
    forall x ensures x in s <==> x in keys {
      assert x in s <==> x in multiset(s);
    }
  }
}
