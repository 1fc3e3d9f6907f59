/** The fair-market-value rule that both userscripts apply to a window of
    prices: take the mean and the population standard deviation, keep the
    prices within `threshold` standard deviations of the mean, and return
    the mean of what is kept, falling back to the plain mean when that
    quotient is 0 or undefined.

    Prices are exact reals. The standard deviation is never formed: the
    test |p - mean| <= threshold * sigma is written on the variance, see
    `Keep` and `KeepIsDeviationTest`. */
module Estimator {

  /** Number of trades in a window (the constant 15 of both scripts). */
  const WindowSize: nat := 15

  /** Threshold used when no other is given (`threshold = 2`). */
  const DefaultThreshold: real := 2.0

  function Sum(s: seq<real>): real {
    if s == [] then 0.0 else s[0] + Sum(s[1..])
  }

  /** The arithmetic mean: n times it is the sum of the prices. */
  function Mean(s: seq<real>): (m: real)
    requires |s| > 0
    ensures m * (|s| as real) == Sum(s)
  {
    DivMul(Sum(s), |s| as real);
    Sum(s) / (|s| as real)
  }

  function Sq(x: real): real { x * x }

  /** Sum of squared deviations from `m`. */
  function SquaredDeviations(s: seq<real>, m: real): real {
    if s == [] then 0.0 else Sq(s[0] - m) + SquaredDeviations(s[1..], m)
  }

  /** Population variance: the square of the scripts' `deviation`. */
  function Variance(s: seq<real>): (v: real)
    requires |s| > 0
    ensures 0.0 <= v
  {
    SquaredDeviationBound(s, Mean(s), 0);
    SquaredDeviations(s, Mean(s)) / (|s| as real)
  }

  /** The filter test |p - m| <= k * sqrt(v), for a variance v >= 0: the
      mean itself always passes, and a threshold of at most 0 lets nothing
      else through. */
  predicate Keep(p: real, m: real, k: real, v: real): (b: bool)
    ensures p == m && 0.0 <= v && (0.0 <= k || v == 0.0) ==> b
    ensures b && k <= 0.0 ==> p == m
  {
    if k >= 0.0 then
      SqNonNegative(k);
      SqSign(p - m);
      Sq(p - m) <= Sq(k) * v
    else p == m && v == 0.0
  }

  /** `filter` with the test above: every passing price, as often as it
      occurs, in window order. */
  function Kept(s: seq<real>, m: real, k: real, v: real): (r: seq<real>)
    ensures |r| <= |s|
    ensures forall x :: x in r ==> x in s && Keep(x, m, k, v)
    ensures forall i :: 0 <= i < |s| && Keep(s[i], m, k, v) ==> s[i] in r
    ensures forall x :: multiset(r)[x] == if Keep(x, m, k, v) then multiset(s)[x] else 0
  {
    if s == [] then []
    else
      assert s == [s[0]] + s[1..];
      (if Keep(s[0], m, k, v) then [s[0]] else []) + Kept(s[1..], m, k, v)
  }

  /** The fair market value of one non-empty window of prices, which lies
      between the window's smallest and largest price. */
  function WindowFmv(w: seq<real>, k: real): (r: real)
    requires |w| > 0
    ensures MinOf(w) <= r <= MaxOf(w)
  {
    var mean := Mean(w);
    var kept := Kept(w, mean, k, Variance(w));
    MeanBounds(w, MinOf(w), MaxOf(w));
    if |kept| == 0 then mean
    else
      KeptMeanInRange(w, mean, k, Variance(w));
      var fmv := Mean(kept);
      if fmv == 0.0 then mean else fmv
  }

  /** The kept prices are window prices, so their mean is within the
      window's range. */
  lemma KeptMeanInRange(w: seq<real>, m: real, k: real, v: real)
    requires |Kept(w, m, k, v)| > 0
    ensures |w| > 0 && MinOf(w) <= Mean(Kept(w, m, k, v)) <= MaxOf(w)
  {
    var kept := Kept(w, m, k, v);
    forall i | 0 <= i < |kept| ensures MinOf(w) <= kept[i] <= MaxOf(w) {
      assert kept[i] in kept;
    }
    MeanBounds(kept, MinOf(w), MaxOf(w));
  }

  function MinOf(s: seq<real>): (r: real)
    requires |s| > 0
    ensures r in s
    ensures forall i :: 0 <= i < |s| ==> r <= s[i]
  {
    if |s| == 1 then s[0]
    else var rest := MinOf(s[1..]); if s[0] <= rest then s[0] else rest
  }

  function MaxOf(s: seq<real>): (r: real)
    requires |s| > 0
    ensures r in s
    ensures forall i :: 0 <= i < |s| ==> s[i] <= r
  {
    if |s| == 1 then s[0]
    else var rest := MaxOf(s[1..]); if s[0] <= rest then rest else s[0]
  }

  function Abs(x: real): real { if x < 0.0 then -x else x }

  // ---------------------------------------------------------------------
  // Real-arithmetic facts, each on plain variables

  lemma ProductPositive(a: real, b: real)
    requires a > 0.0 && b > 0.0
    ensures a * b > 0.0
  {
  }

  lemma ProductNonNegative(a: real, b: real)
    requires a >= 0.0 && b >= 0.0
    ensures a * b >= 0.0
  {
  }

  lemma SqPositive(x: real)
    requires x != 0.0
    ensures Sq(x) > 0.0
  {
    calc { Sq(x); == x * x; > 0.0; }
  }

  lemma SqNonNegative(x: real)
    ensures Sq(x) >= 0.0
  {
    calc { Sq(x); == x * x; >= 0.0; }
  }

  lemma SqSign(x: real)
    ensures 0.0 <= Sq(x) && (x != 0.0 ==> Sq(x) > 0.0)
  {
    SqNonNegative(x);
    if x != 0.0 { SqPositive(x); }
  }

  lemma SqNegate(x: real)
    ensures Sq(-x) == Sq(x)
  {
    calc { Sq(-x); == (-x) * (-x); == x * x; }
  }

  lemma SqProduct(a: real, b: real)
    ensures Sq(a * b) == Sq(a) * Sq(b)
  {
    calc { Sq(a * b); == (a * b) * (a * b); == (a * a) * (b * b); }
  }

  lemma MulMonotone(x: real, y: real, z: real)
    requires 0.0 <= z && x <= y
    ensures z * x <= z * y
  {
    ProductNonNegative(z, y - x);
    calc { z * y - z * x; == z * (y - x); }
  }

  lemma MulStrict(x: real, y: real, z: real)
    requires 0.0 < z && x < y
    ensures z * x < z * y
  {
    ProductPositive(z, y - x);
    calc { z * y - z * x; == z * (y - x); }
  }

  lemma SqMonotone(a: real, b: real)
    requires 0.0 <= a && 0.0 <= b
    ensures a <= b <==> Sq(a) <= Sq(b)
  {
    if a < b {
      MulMonotone(a, b, a);
      MulStrict(a, b, b);
      calc { Sq(a); == a * a; <= a * b; == b * a; < b * b; == Sq(b); }
    } else if b < a {
      MulMonotone(b, a, b);
      MulStrict(b, a, a);
      calc { Sq(b); == b * b; <= b * a; == a * b; < a * a; == Sq(a); }
    }
  }

  lemma ScaleAtLeast(k: real, v: real)
    requires k >= 1.0 && v >= 0.0
    ensures Sq(k) * v >= v
  {
    ProductNonNegative(k - 1.0, k + 1.0);
    calc { Sq(k) - 1.0; == k * k - 1.0; == (k - 1.0) * (k + 1.0); }
    ProductNonNegative(Sq(k) - 1.0, v);
    calc { Sq(k) * v - v; == (Sq(k) - 1.0) * v; }
  }

  lemma ScaleBelow(v: real, n: real, q: real)
    requires v >= 0.0 && n <= q
    ensures v * n <= q * v
  {
    ProductNonNegative(v, q - n);
    calc { q * v - v * n; == v * (q - n); }
  }

  lemma DivideBounds(x: real, n: real, lo: real, hi: real)
    requires n > 0.0 && lo * n <= x <= hi * n
    ensures lo <= x / n <= hi
  {
    var q := x / n;
    calc { (q - lo) * n; == q * n - lo * n; == x - lo * n; }
    calc { (hi - q) * n; == hi * n - q * n; == hi * n - x; }
    if q < lo { ProductPositive(lo - q, n); }
    if q > hi { ProductPositive(q - hi, n); }
  }

  lemma DivMul(x: real, n: real)
    requires n > 0.0
    ensures (x / n) * n == x
  {
  }

  /** n * c + c == (n + 1) * c, the step of every induction over a sum. */
  lemma AddOne(n: real, c: real)
    ensures c * (n + 1.0) == c * n + c
  {
  }

  // ---------------------------------------------------------------------
  // The filter test without a square root

  /** For any sigma >= 0 with sigma * sigma == v, `Keep` is exactly the
      scripts' test |p - m| <= k * sigma, for every threshold k. */
  lemma KeepIsDeviationTest(p: real, m: real, k: real, v: real, sigma: real)
    requires 0.0 <= sigma && Sq(sigma) == v
    ensures Keep(p, m, k, v) <==> Abs(p - m) <= k * sigma
  {
    var d := Abs(p - m);
    if p - m < 0.0 { SqNegate(p - m); }
    assert Sq(d) == Sq(p - m);
    if k >= 0.0 {
      ProductNonNegative(k, sigma);
      SqMonotone(d, k * sigma);
      SqProduct(k, sigma);
    } else if sigma == 0.0 {
      assert k * sigma == 0.0;
    } else {
      assert k * sigma < 0.0 by { ProductPositive(-k, sigma); }
    }
  }

  /** With no spread every price at the mean is kept, whatever k is. */
  lemma KeepAtMean(m: real, k: real)
    ensures Keep(m, m, k, 0.0)
  {
    calc { Sq(m - m); == 0.0 * 0.0; == 0.0; }
    calc { Sq(k) * 0.0; == 0.0; }
  }

  /** A threshold of 0 keeps exactly the prices equal to the mean. */
  lemma KeepZeroThreshold(p: real, m: real, v: real)
    ensures Keep(p, m, 0.0, v) <==> p == m
  {
    assert Sq(0.0) * v == 0.0;
    if p != m { SqPositive(p - m); }
  }

  // ---------------------------------------------------------------------
  // Sums and means

  lemma {:induction false} SumBounds(s: seq<real>, lo: real, hi: real)
    requires forall i :: 0 <= i < |s| ==> lo <= s[i] <= hi
    ensures lo * (|s| as real) <= Sum(s) <= hi * (|s| as real)
  {
    if s != [] {
      SumBounds(s[1..], lo, hi);
      AddOne((|s| - 1) as real, lo);
      AddOne((|s| - 1) as real, hi);
    }
  }

  /** The mean of a non-empty list lies between any bounds of its elements. */
  lemma MeanBounds(s: seq<real>, lo: real, hi: real)
    requires |s| > 0
    requires forall i :: 0 <= i < |s| ==> lo <= s[i] <= hi
    ensures lo <= Mean(s) <= hi
  {
    SumBounds(s, lo, hi);
    DivideBounds(Sum(s), |s| as real, lo, hi);
  }

  lemma {:induction false} SumConstant(s: seq<real>, c: real)
    requires forall i :: 0 <= i < |s| ==> s[i] == c
    ensures Sum(s) == c * (|s| as real)
    ensures SquaredDeviations(s, c) == 0.0
  {
    if s != [] {
      SumConstant(s[1..], c);
      AddOne((|s| - 1) as real, c);
      assert Sq(s[0] - c) == 0.0;
    }
  }

  /** Every squared deviation is at most their sum. */
  lemma {:induction false} SquaredDeviationBound(s: seq<real>, m: real, i: nat)
    requires i < |s|
    ensures Sq(s[i] - m) <= SquaredDeviations(s, m)
    ensures 0.0 <= SquaredDeviations(s, m)
  {
    SqNonNegative(s[0] - m);
    if i == 0 {
      if |s| > 1 { SquaredDeviationBound(s[1..], m, 0); }
    } else {
      SquaredDeviationBound(s[1..], m, i - 1);
    }
  }

  /** If every squared deviation exceeds c, their sum exceeds c * |s|. */
  lemma {:induction false} SquaredDeviationsAbove(s: seq<real>, m: real, c: real)
    requires |s| > 0
    requires forall i :: 0 <= i < |s| ==> Sq(s[i] - m) > c
    ensures SquaredDeviations(s, m) > c * (|s| as real)
  {
    if |s| > 1 {
      SquaredDeviationsAbove(s[1..], m, c);
      AddOne((|s| - 1) as real, c);
    }
  }

  /** n times the variance is the sum of squared deviations. */
  lemma VarianceScaled(s: seq<real>)
    requires |s| > 0
    ensures Variance(s) * (|s| as real) == SquaredDeviations(s, Mean(s))
  {
    DivMul(SquaredDeviations(s, Mean(s)), |s| as real);
  }

  lemma {:induction false} KeptAll(s: seq<real>, m: real, k: real, v: real)
    requires forall i :: 0 <= i < |s| ==> Keep(s[i], m, k, v)
    ensures Kept(s, m, k, v) == s
  {
    if s != [] {
      KeptAll(s[1..], m, k, v);
    }
  }

  /** A threshold of 0 keeps exactly the prices equal to the mean. */
  lemma {:induction false} KeptZeroThreshold(s: seq<real>, m: real, v: real)
    ensures forall x :: x in Kept(s, m, 0.0, v) <==> x in s && x == m
  {
    if s != [] {
      KeptZeroThreshold(s[1..], m, v);
      KeepZeroThreshold(s[0], m, v);
      assert Kept(s, m, 0.0, v)
        == (if s[0] == m then [s[0]] else []) + Kept(s[1..], m, 0.0, v);
      assert s == [s[0]] + s[1..];
    }
  }

  // ---------------------------------------------------------------------
  // Properties of the window rule

  /** The fair market value lies between any bounds of the window's prices. */
  lemma WindowFmvBounds(w: seq<real>, k: real, lo: real, hi: real)
    requires |w| > 0
    requires forall i :: 0 <= i < |w| ==> lo <= w[i] <= hi
    ensures lo <= WindowFmv(w, k) <= hi
  {
    MeanBounds(w, lo, hi);
    var kept := Kept(w, Mean(w), k, Variance(w));
    if |kept| > 0 {
      forall i | 0 <= i < |kept| ensures lo <= kept[i] <= hi {
        assert kept[i] in kept;
      }
      MeanBounds(kept, lo, hi);
    }
  }

  /** A window of equal prices has that price as its fair market value,
      whatever the threshold; for the price 0 this goes through the
      fallback. */
  lemma WindowFmvConstant(w: seq<real>, k: real, c: real)
    requires |w| > 0
    requires forall i :: 0 <= i < |w| ==> w[i] == c
    ensures Mean(w) == c && Variance(w) == 0.0
    ensures Kept(w, Mean(w), k, Variance(w)) == w
    ensures WindowFmv(w, k) == c
  {
    MeanVarianceConstant(w, c);
    KeepAtMean(c, k);
    KeptAll(w, c, k, 0.0);
  }

  lemma MeanVarianceConstant(w: seq<real>, c: real)
    requires |w| > 0
    requires forall i :: 0 <= i < |w| ==> w[i] == c
    ensures Mean(w) == c && Variance(w) == 0.0
  {
    SumConstant(w, c);
    var n := |w| as real;
    calc { Mean(w); == Sum(w) / n; == (c * n) / n; == c; }
    calc { Variance(w); == SquaredDeviations(w, c) / n; == 0.0 / n; == 0.0; }
  }

  /** A one-trade window has that trade's price as its fair market value. */
  lemma WindowFmvSingle(p: real, k: real)
    ensures WindowFmv([p], k) == p
  {
    WindowFmvConstant([p], k, p);
  }

  /** When the threshold keeps every price, the result is the plain mean. */
  lemma WindowFmvUnfiltered(w: seq<real>, k: real)
    requires |w| > 0 && k >= 0.0
    requires forall i :: 0 <= i < |w| ==> Sq(w[i] - Mean(w)) <= Sq(k) * Variance(w)
    ensures WindowFmv(w, k) == Mean(w)
  {
    forall i | 0 <= i < |w| ensures Keep(w[i], Mean(w), k, Variance(w)) { }
    KeptAll(w, Mean(w), k, Variance(w));
  }

  /** No squared deviation exceeds the variance times the window size. */
  lemma DeviationsBelowTotal(w: seq<real>)
    requires |w| > 0
    ensures 0.0 <= Variance(w)
    ensures forall i :: 0 <= i < |w| ==> Sq(w[i] - Mean(w)) <= Variance(w) * (|w| as real)
  {
    VarianceScaled(w);
    forall i | 0 <= i < |w| ensures Sq(w[i] - Mean(w)) <= SquaredDeviations(w, Mean(w)) {
      SquaredDeviationBound(w, Mean(w), i);
    }
  }

  /** The same in the scripts' terms: if no price is more than k standard
      deviations from the mean, the result is the plain mean. */
  lemma WindowFmvWithinDeviation(w: seq<real>, k: real, sigma: real)
    requires |w| > 0 && 0.0 <= sigma && Sq(sigma) == Variance(w)
    requires forall i :: 0 <= i < |w| ==> Abs(w[i] - Mean(w)) <= k * sigma
    ensures WindowFmv(w, k) == Mean(w)
  {
    forall i | 0 <= i < |w| ensures Keep(w[i], Mean(w), k, Variance(w)) {
      KeepIsDeviationTest(w[i], Mean(w), k, Variance(w), sigma);
    }
    KeptAll(w, Mean(w), k, Variance(w));
  }

  /** A threshold k >= 0 with k * k >= |w| never removes a price: no price
      of a window of 15 is more than sqrt(15) standard deviations from the
      mean. */
  lemma WindowFmvLargeThreshold(w: seq<real>, k: real)
    requires |w| > 0 && k >= 0.0 && Sq(k) >= |w| as real
    ensures WindowFmv(w, k) == Mean(w)
  {
    var m, v, n, q := Mean(w), Variance(w), |w| as real, Sq(k);
    DeviationsBelowTotal(w);
    ScaleBelow(v, n, q);
    forall i | 0 <= i < |w| ensures Sq(w[i] - m) <= q * v {
      assert Sq(w[i] - m) <= v * n;
    }
    WindowFmvUnfiltered(w, k);
  }

  /** A negative threshold keeps a price only when there is no spread, and
      then every kept price is the mean; either way the result is the plain
      mean (through the fallback when nothing is kept). */
  lemma WindowFmvNegativeThreshold(w: seq<real>, k: real)
    requires |w| > 0 && k < 0.0
    ensures WindowFmv(w, k) == Mean(w)
  {
    var m, v := Mean(w), Variance(w);
    var kept := Kept(w, m, k, v);
    if |kept| > 0 {
      assert kept[0] in kept;
      assert Keep(kept[0], m, k, v);
      forall i | 0 <= i < |kept| ensures kept[i] == m {
        assert kept[i] in kept;
      }
      MeanVarianceConstant(kept, m);
    }
  }

  /** With a threshold of at least one standard deviation some price is
      always kept, so the fallback is taken only for a kept mean of 0. */
  lemma KeptNonEmpty(w: seq<real>, k: real)
    requires |w| > 0 && k >= 1.0
    ensures |Kept(w, Mean(w), k, Variance(w))| > 0
  {
    var m, v, n := Mean(w), Variance(w), |w| as real;
    VarianceScaled(w);
    ScaleAtLeast(k, v);
    if |Kept(w, m, k, v)| == 0 {
      forall i | 0 <= i < |w| ensures Sq(w[i] - m) > v {
        assert !Keep(w[i], m, k, v);
      }
      SquaredDeviationsAbove(w, m, v);
      assert false;
    }
  }

  /** Below one standard deviation everything can be filtered out: for the
      prices 0 and 2 (mean 1, deviation 1) and k = 0.5 nothing is kept and
      the result is the plain mean by the fallback. */
  lemma KeptCanBeEmpty()
    ensures Mean([0.0, 2.0]) == 1.0 && Variance([0.0, 2.0]) == 1.0
    ensures Kept([0.0, 2.0], 1.0, 0.5, 1.0) == []
    ensures WindowFmv([0.0, 2.0], 0.5) == 1.0
  {
    var w := [0.0, 2.0];
    assert w[1..] == [2.0];
    assert Sum(w) == 2.0;
    assert SquaredDeviations(w, 1.0) == 2.0;
    assert Kept(w, 1.0, 0.5, 1.0) == [];
  }

  /** The prices 10, 10, 10, 100 with k = 2: mean 32.5, variance 1518.75;
      100 is within two standard deviations, so all four are kept and the
      outlier is not removed. */
  lemma OutlierKept()
    ensures WindowFmv([10.0, 10.0, 10.0, 100.0], 2.0) == 32.5
  {
    var w := [10.0, 10.0, 10.0, 100.0];
    assert w[1..] == [10.0, 10.0, 100.0];
    assert w[1..][1..] == [10.0, 100.0];
    assert w[1..][1..][1..] == [100.0];
    assert Sum(w) == 130.0;
    assert Mean(w) == 32.5;
    assert SquaredDeviations(w, 32.5) == 6075.0;
    assert Variance(w) == 1518.75;
    forall i | 0 <= i < |w| ensures Keep(w[i], 32.5, 2.0, 1518.75) { }
    KeptAll(w, 32.5, 2.0, 1518.75);
  }
}
