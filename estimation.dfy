/** The interval estimate of `Trader.calc_expected` (trading_algo.py,
    lines 34-44): over the last 30 recorded fair prices, the mean plus or
    minus two sample standard deviations. */
module Estimation {
  import opened Market
  import opened Statistics

  /** How many of the most recent fair prices an estimate looks at (line 39). */
  const Lookback: nat := 30

  /** Python's `h[-30:]`: the last 30 entries, or all of them when fewer. */
  function Window(h: seq<real>): (w: seq<real>)
    ensures |w| == if |h| < Lookback then |h| else Lookback
    ensures w == h[|h| - |w|..]
  {
    if |h| <= Lookback then h else h[|h| - Lookback..]
  }

  /** Line 43: two standard deviations either side of the mean. */
  function Band(sma: real, std: real): (real, real)
  {
    (sma - 2.0 * std, sma + 2.0 * std)
  }

  /** Lines 41-43 on one sample: `(mean - 2 stdev, mean + 2 stdev)`. The mean
      raises on an empty sample and the stdev on a single point. */
  function Interval(sample: seq<real>, sqrt: Root): Result<(real, real)>
  {
    match Mean(sample)
    case Err(e) => Err(e)
    case Ok(sma) =>
      match Stdev(sample, sqrt)
      case Err(e) => Err(e)
      case Ok(std) => Ok(Band(sma, std))
  }

  /** The interval fails exactly on fewer than two points (with the mean's
      error on none and the stdev's on one); otherwise it is an interval
      centred on the mean. */
  lemma IntervalMeaning(sample: seq<real>, sqrt: Root)
    ensures var r := Interval(sample, sqrt);
      && (r.Err? <==> |sample| < 2)
      && (r.Err? ==> r.error == if sample == [] then NoData else NeedTwoPoints)
      && (r.Ok? ==> r.value.0 <= r.value.1)
      && (r.Ok? ==> (r.value.0 + r.value.1) / 2.0 == Mean(sample).value)
  {
  }

  /** The interval is centred inside any bounds of the sample. */
  lemma IntervalCentreWithin(sample: seq<real>, sqrt: Root, lo: real, hi: real)
    requires Interval(sample, sqrt).Ok?
    requires forall i :: 0 <= i < |sample| ==> lo <= sample[i] <= hi
    ensures var (lb, ub) := Interval(sample, sqrt).value; lo <= (lb + ub) / 2.0 <= hi
  {
    IntervalMeaning(sample, sqrt);
    MeanWithin(sample, lo, hi);
  }

  /** One product's expectation (lines 39-43); `self.history[product]` raises
      for a product the store does not track. */
  function Expected(history: map<string, seq<real>>, product: string, sqrt: Root): Result<(real, real)>
  {
    if product !in history then Err(MissingHistory) else Interval(Window(history[product]), sqrt)
  }

  /** An expectation is missing exactly for an untracked product or one with
      fewer than two recorded fair prices. */
  lemma ExpectedFails(history: map<string, seq<real>>, product: string, sqrt: Root)
    ensures var r := Expected(history, product, sqrt);
      && (r.Err? <==> product !in history || |history[product]| < 2)
      && (r.Err? ==> r.error == if product !in history then MissingHistory
                                else if history[product] == [] then NoData else NeedTwoPoints)
  {
    if product in history {
      IntervalMeaning(Window(history[product]), sqrt);
    }
  }

  /** `e` is the error of the first of `products` without an estimate. */
  predicate FirstFailure(history: map<string, seq<real>>, products: seq<string>, sqrt: Root, e: Error)
  {
    exists i :: 0 <= i < |products| && FailsFirstAt(history, products, sqrt, e, i)
  }

  /** The `i`-th product is the first without an estimate, and its error is `e`. */
  predicate FailsFirstAt(history: map<string, seq<real>>, products: seq<string>, sqrt: Root, e: Error, i: int)
  {
    0 <= i < |products| && Expected(history, products[i], sqrt) == Err(e) &&
      (forall j :: 0 <= j < i ==> Expected(history, products[j], sqrt).Ok?)
  }

  /** The loop of lines 37-43 from `products` on, having filled `acc`. */
  function ExpectationsFrom(history: map<string, seq<real>>, products: seq<string>, sqrt: Root, acc: map<string, (real, real)>)
    : Result<map<string, (real, real)>>
  {
    if products == [] then Ok(acc)
    else
      match Expected(history, products[0], sqrt)
      case Err(e) => Err(e)
      case Ok(iv) => ExpectationsFrom(history, products[1..], sqrt, acc[products[0] := iv])
  }

  /** One step of the loop: the first product either raises or has its
      estimate filled in before the rest are estimated. */
  lemma ExpectationsStep(history: map<string, seq<real>>, products: seq<string>, sqrt: Root, acc: map<string, (real, real)>)
    requires products != []
    ensures var e := Expected(history, products[0], sqrt);
      && (e.Err? ==> ExpectationsFrom(history, products, sqrt, acc) == Err(e.error))
      && (e.Ok? ==> (ExpectationsFrom(history, products, sqrt, acc) ==
            ExpectationsFrom(history, products[1..], sqrt, acc[products[0] := e.value])))
  {
  }

  /** `calc_expected`: the expectation of every listed product. */
  function Expectations(history: map<string, seq<real>>, products: seq<string>, sqrt: Root): Result<map<string, (real, real)>>
  {
    ExpectationsFrom(history, products, sqrt, map[])
  }

  /** What the loop computes: it succeeds exactly when every product has an
      estimate, and then maps each product (and nothing else beyond what was
      already filled) to its estimate; otherwise it raises the error of the
      first product without one. */
  lemma {:induction false} ExpectationsFromMeaning(history: map<string, seq<real>>, products: seq<string>, sqrt: Root, acc: map<string, (real, real)>)
    ensures var r := ExpectationsFrom(history, products, sqrt, acc);
      && (r.Ok? <==> forall p :: p in products ==> Expected(history, p, sqrt).Ok?)
      && (r.Ok? ==> forall p :: p in r.value <==> p in products || p in acc)
      && (r.Ok? ==> forall p :: p in products ==> r.value[p] == Expected(history, p, sqrt).value)
      && (r.Ok? ==> forall p :: p in acc && p !in products ==> r.value[p] == acc[p])
      && (r.Err? ==> FirstFailure(history, products, sqrt, r.error))
  {
    if products != [] {
      var p := products[0];
      var rest := products[1..];
      assert forall q :: q in products <==> q == p || q in rest;
      ExpectationsStep(history, products, sqrt, acc);
      var e := Expected(history, p, sqrt);
      if e.Err? {
        assert FirstFailure(history, products, sqrt, e.error) by {
          assert FailsFirstAt(history, products, sqrt, e.error, 0);
        }
      } else {
        var iv := e.value;
        ExpectationsFromMeaning(history, rest, sqrt, acc[p := iv]);
        var r := ExpectationsFrom(history, rest, sqrt, acc[p := iv]);
        if r.Err? {
          FirstFailureLater(history, products, sqrt, r.error);
          assert FirstFailure(history, products, sqrt, r.error);
        }
      }
    }
  }

  /** A first failure after a product with an estimate is the first failure
      of the longer list too. */
  lemma FirstFailureLater(history: map<string, seq<real>>, products: seq<string>, sqrt: Root, e: Error)
    requires products != [] && Expected(history, products[0], sqrt).Ok?
    requires FirstFailure(history, products[1..], sqrt, e)
    ensures FirstFailure(history, products, sqrt, e)
  {
    var rest := products[1..];
    var i :| 0 <= i < |rest| && FailsFirstAt(history, rest, sqrt, e, i);
    assert forall j :: 1 <= j < |products| ==> products[j] == rest[j - 1];
    assert FailsFirstAt(history, products, sqrt, e, i + 1);
  }

  /** `calc_expected` maps exactly the listed products to their estimates, or
      raises the error of the first listed product without one. */
  lemma ExpectationsMeaning(history: map<string, seq<real>>, products: seq<string>, sqrt: Root)
    ensures var r := Expectations(history, products, sqrt);
      && (r.Ok? <==> forall p :: p in products ==> Expected(history, p, sqrt).Ok?)
      && (r.Ok? ==> forall p :: p in r.value <==> p in products)
      && (r.Ok? ==> forall p :: p in products ==> r.value[p] == Expected(history, p, sqrt).value)
      && (r.Err? ==> FirstFailure(history, products, sqrt, r.error))
  {
    ExpectationsFromMeaning(history, products, sqrt, map[]);
  }
}
