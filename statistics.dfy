/** The three functions of Python's `statistics` module the trader calls,
    over exact reals. The square root inside `stdev` is a parameter. */
module Statistics {
  import opened Market
  import opened Sorting

  /** A square root: only its non-negativity is relied upon. */
  type Root = f: real -> real | forall x :: 0.0 <= f(x) witness (x: real) => 0.0

  /** `statistics.median` of a list of integers. It sorts its input first,
      so only the multiset of the data matters. */
  function Median(data: multiset<int>): (r: Result<real>)
    ensures r.Err? <==> data == multiset{}
    ensures r.Err? ==> r.error == NoData
  {
    Middle(Sort(data))
  }

  /** The middle of a sorted list: its middle element for an odd length, the
      mean of the two middle elements for an even one. */
  function Middle(s: seq<int>): Result<real>
  {
    var n := |s|;
    if n == 0 then Err(NoData)
    else if n % 2 == 1 then Ok(s[n / 2] as real)
    else Ok((s[n / 2 - 1] + s[n / 2]) as real / 2.0)
  }

  /** The median lies within any bounds of the data... */
  lemma MedianWithin(data: multiset<int>, lo: int, hi: int)
    requires data != multiset{}
    requires forall x :: x in data ==> lo <= x <= hi
    ensures lo as real <= Median(data).value <= hi as real
  {
    var s := Sort(data);
    SortSorted(data);
    forall i | 0 <= i < |s| ensures lo <= s[i] <= hi {
      assert s[i] in multiset(s);
    }
    MiddleWithin(s, lo, hi);
  }

  lemma MiddleWithin(s: seq<int>, lo: int, hi: int)
    requires s != []
    requires forall i :: 0 <= i < |s| ==> lo <= s[i] <= hi
    ensures lo as real <= Middle(s).value <= hi as real
  {
    var k := |s| / 2;
    if |s| % 2 == 0 {
      assert lo <= s[k - 1] <= hi && lo <= s[k] <= hi;
    }
  }

  /** ...and between two of the data's own values, its least and greatest. */
  lemma MedianBetweenData(data: multiset<int>) returns (lo: int, hi: int)
    requires data != multiset{}
    ensures lo in data && hi in data
    ensures forall x :: x in data ==> lo <= x <= hi
    ensures lo as real <= Median(data).value <= hi as real
  {
    var s := Sort(data);
    SortSorted(data);
    var n := |s|;
    lo, hi := s[0], s[n - 1];
    assert lo in multiset(s) && hi in multiset(s);
    forall x | x in data ensures lo <= x <= hi {
      assert x in s by {
        assert x in multiset(s);
      }
      var i :| 0 <= i < n && s[i] == x;
      assert s[0] <= s[i] <= s[n - 1];
    }
    MedianWithin(data, lo, hi);
  }

  lemma {:induction false} CountAtMostLength(t: seq<int>, v: int)
    ensures multiset(t)[v] <= |t|
  {
    if t != [] {
      assert t == [t[0]] + t[1..];
      assert multiset(t) == multiset{t[0]} + multiset(t[1..]);
      CountAtMostLength(t[1..], v);
    }
  }

  /** In ascending data, a value other than the one at position `k` occurs
      only on the side of `k` where it belongs. */
  lemma CountBeside(s: seq<int>, k: nat, v: int)
    requires Ascending(s) && k < |s|
    ensures s[k] < v ==> multiset(s)[v] <= |s| - k - 1
    ensures s[k] > v ==> multiset(s)[v] <= k
  {
    var front, back := s[..k + 1], s[k + 1..];
    assert s == front + back;
    assert multiset(s) == multiset(front) + multiset(back);
    if s[k] < v {
      assert v !in front;
      CountAtMostLength(back, v);
    }
    front, back := s[..k], s[k..];
    assert s == front + back;
    assert multiset(s) == multiset(front) + multiset(back);
    if s[k] > v {
      assert v !in back;
      CountAtMostLength(front, v);
    }
  }

  /** A value held by a strict majority of the data is its median. */
  lemma MedianMajority(data: multiset<int>, v: int)
    requires 2 * data[v] > |data|
    ensures Median(data) == Ok(v as real)
  {
    var s := Sort(data);
    SortSorted(data);
    assert |s| == |multiset(s)|;
    MiddleIsMajority(s, v);
  }

  /** In ascending order, a strict majority value fills the middle position
      (both middle positions for an even count), so it is the middle. */
  lemma MiddleIsMajority(s: seq<int>, v: int)
    requires Ascending(s) && 2 * multiset(s)[v] > |s|
    ensures Middle(s) == Ok(v as real)
  {
    var k := |s| / 2;
    CountBeside(s, k, v);
    if |s| % 2 == 0 {
      CountBeside(s, k - 1, v);
      assert (s[k - 1] + s[k]) as real / 2.0 == v as real;
    }
  }

  /** For an odd count, the median is the middle value of the data. */
  lemma MedianOdd(data: multiset<int>) returns (v: int)
    requires |data| % 2 == 1
    ensures v in data && Median(data) == Ok(v as real)
  {
    var s := Sort(data);
    SortSorted(data);
    assert |s| == |multiset(s)|;
    v := s[|s| / 2];
    assert v in multiset(s);
  }

  function Sum(s: seq<real>): real
  {
    if s == [] then 0.0 else s[0] + Sum(s[1..])
  }

  /** Any bounds on each element bound the sum. */
  lemma {:induction false} SumWithin(s: seq<real>, lo: real, hi: real)
    requires forall i :: 0 <= i < |s| ==> lo <= s[i] <= hi
    ensures |s| as real * lo <= Sum(s) <= |s| as real * hi
  {
    if s != [] {
      SumWithin(s[1..], lo, hi);
      assert (|s| - 1) as real * lo + s[0] <= Sum(s) <= (|s| - 1) as real * hi + s[0];
    }
  }

  /** `statistics.mean`; it fails on an empty sample. */
  function Mean(s: seq<real>): (r: Result<real>)
    ensures r.Err? <==> s == []
    ensures r.Err? ==> r.error == NoData
  {
    if s == [] then Err(NoData) else Ok(Sum(s) / |s| as real)
  }

  /** The mean lies within any bounds of the sample. */
  lemma MeanWithin(s: seq<real>, lo: real, hi: real)
    requires s != []
    requires forall i :: 0 <= i < |s| ==> lo <= s[i] <= hi
    ensures lo <= Mean(s).value <= hi
  {
    SumWithin(s, lo, hi);
    var n := |s| as real;
    assert n * lo <= Sum(s) <= n * hi;
    assert Sum(s) / n * n == Sum(s);
  }

  /** Sum of squared deviations from `centre`. */
  function SquaredDeviations(s: seq<real>, centre: real): (r: real)
    ensures 0.0 <= r
  {
    if s == [] then 0.0 else Square(s[0] - centre) + SquaredDeviations(s[1..], centre)
  }

  function Square(d: real): (r: real)
    ensures 0.0 <= r
  {
    if d < 0.0 then (-d) * (-d) else d * d
  }

  /** Sample variance (denominator n - 1), defined for two or more points. */
  function SampleVariance(s: seq<real>): (r: real)
    requires |s| >= 2
    ensures 0.0 <= r
  {
    SquaredDeviations(s, Sum(s) / |s| as real) / (|s| - 1) as real
  }

  /** `statistics.stdev`: the root of the sample variance; it fails on fewer than two points. */
  function Stdev(s: seq<real>, sqrt: Root): (r: Result<real>)
    ensures r.Err? <==> |s| < 2
    ensures r.Err? ==> r.error == NeedTwoPoints
    ensures r.Ok? ==> 0.0 <= r.value
  {
    if |s| < 2 then Err(NeedTwoPoints) else Ok(sqrt(SampleVariance(s)))
  }
}
