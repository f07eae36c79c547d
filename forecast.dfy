/** The next-day forecast: five estimators of tomorrow's close computed over
    the last thirty closes, blended with fixed weights, with a confidence
    score and a band of plus or minus 1.96 standard deviations of the daily
    returns. */
module Forecast {
  import opened Wrappers
  import opened Signals

  predicate Positive(s: seq<real>) {
    forall i :: 0 <= i < |s| ==> s[i] > 0.0
  }

  /** `Math.sqrt`, supplied by the caller: any function that returns the
      non-negative square root of a non-negative argument. */
  ghost predicate IsSqrt(sqrt: real -> real) {
    && sqrt(0.0) == 0.0
    && forall x :: x >= 0.0 ==> sqrt(x) >= 0.0 && sqrt(x) * sqrt(x) == x
  }

  function Min(a: real, b: real): real { if a <= b then a else b }
  function Max(a: real, b: real): real { if a >= b then a else b }

  // ----- arithmetic facts the solver needs spelled out -----

  lemma MulMonotone(a: real, b: real, c: real)
    requires a <= b && c >= 0.0
    ensures a * c <= b * c
  {
  }

  lemma AddMonotone(a: real, b: real, c: real, d: real)
    requires a <= b && c <= d
    ensures a + c <= b + d
  {
  }

  lemma Distribute(a: real, k: real, j: real)
    requires k + j == 1.0
    ensures a * k + a * j == a
  {
    assert a * k + a * j == a * (k + j);
  }

  /** A weighted average of two values with weights k and j = 1 - k is at
      least their common lower bound ... */
  lemma ConvexAtLeast(x: real, e: real, k: real, j: real, lo: real)
    requires lo <= x && lo <= e && 0.0 <= k && 0.0 <= j && k + j == 1.0
    ensures lo <= x * k + e * j
  {
    MulMonotone(lo, x, k);
    MulMonotone(lo, e, j);
    AddMonotone(lo * k, x * k, lo * j, e * j);
    Distribute(lo, k, j);
  }

  /** ... and at most their common upper bound. */
  lemma ConvexAtMost(x: real, e: real, k: real, j: real, hi: real)
    requires x <= hi && e <= hi && 0.0 <= k && 0.0 <= j && k + j == 1.0
    ensures x * k + e * j <= hi
  {
    MulMonotone(x, hi, k);
    MulMonotone(e, hi, j);
    AddMonotone(x * k, hi * k, e * j, hi * j);
    Distribute(hi, k, j);
  }

  lemma MulNonNegative(a: real, b: real)
    requires a >= 0.0 && b >= 0.0
    ensures a * b >= 0.0
  {
  }

  lemma QuotientSign(x: real, y: real)
    requires y > 0.0
    ensures x / y > 0.0 <==> x > 0.0
    ensures x / y == 0.0 <==> x == 0.0
    ensures x / y < 0.0 <==> x < 0.0
  {
  }

  lemma MulPositive(a: real, b: real)
    requires a > 0.0 && b > 0.0
    ensures a * b > 0.0
  {
  }

  lemma SquareNonNegative(d: real)
    ensures d * d >= 0.0
  {
  }

  lemma DivBounds(x: real, n: real, lo: real, hi: real)
    requires n > 0.0 && n * lo <= x <= n * hi
    ensures lo <= x / n <= hi
  {
  }

  /** Sum of a series, added from the left as `reduce` does. */
  function Sum(s: seq<real>): real
  {
    if s == [] then 0.0 else Sum(s[..|s| - 1]) + s[|s| - 1]
  }

  function SeqMin(s: seq<real>): (m: real)
    requires |s| >= 1
    ensures m in s
    ensures forall i :: 0 <= i < |s| ==> m <= s[i]
  {
    if |s| == 1 then s[0] else Min(SeqMin(s[..|s| - 1]), s[|s| - 1])
  }

  function SeqMax(s: seq<real>): (m: real)
    requires |s| >= 1
    ensures m in s
    ensures forall i :: 0 <= i < |s| ==> s[i] <= m
  {
    if |s| == 1 then s[0] else Max(SeqMax(s[..|s| - 1]), s[|s| - 1])
  }

  /** A sum of n terms each in [lo, hi] lies in [n * lo, n * hi]. */
  lemma {:induction false} SumBounds(s: seq<real>, lo: real, hi: real)
    requires forall i :: 0 <= i < |s| ==> lo <= s[i] <= hi
    ensures |s| as real * lo <= Sum(s) <= |s| as real * hi
  {
    if s != [] {
      SumBounds(s[..|s| - 1], lo, hi);
    }
  }

  function Mean(s: seq<real>): real
    requires |s| >= 1
  {
    Sum(s) / |s| as real
  }

  /** A mean of values in [lo, hi] is in [lo, hi]. */
  lemma MeanWithin(s: seq<real>, lo: real, hi: real)
    requires |s| >= 1
    requires forall i :: 0 <= i < |s| ==> lo <= s[i] <= hi
    ensures lo <= Mean(s) <= hi
  {
    SumBounds(s, lo, hi);
    DivBounds(Sum(s), |s| as real, lo, hi);
  }

  /** The arithmetic mean lies between the smallest and the largest value. */
  lemma MeanBounds(s: seq<real>)
    requires |s| >= 1
    ensures SeqMin(s) <= Mean(s) <= SeqMax(s)
  {
    MeanWithin(s, SeqMin(s), SeqMax(s));
  }

  /** The mean of a constant series is that constant. */
  lemma MeanConstant(s: seq<real>, v: real)
    requires |s| >= 1
    requires forall i :: 0 <= i < |s| ==> s[i] == v
    ensures Mean(s) == v
  {
    MeanWithin(s, v, v);
  }

  /** `s.slice(-k)` for k >= 1: the last k elements, or all of them when
      there are fewer. */
  function TakeLast(s: seq<real>, k: nat): (r: seq<real>)
    ensures |r| == if |s| < k then |s| else k
    ensures r == s[|s| - |r|..]
  {
    if |s| <= k then s else s[|s| - k..]
  }

  const WindowSize: nat := 30

  /** The closes the forecast looks at: the last thirty. */
  function Window(closes: seq<real>): seq<real> {
    TakeLast(closes, WindowSize)
  }

  // ----- moving averages -----

  /** The 5-day average divides by 5 even when the window is shorter. */
  function Sma5(w: seq<real>): (r: real)
    ensures |w| >= 5 ==> r == Mean(TakeLast(w, 5))
  {
    Sum(TakeLast(w, 5)) / 5.0
  }

  /** The 10-day average divides by 10 even when the window is shorter. */
  function Sma10(w: seq<real>): (r: real)
    ensures |w| >= 10 ==> r == Mean(TakeLast(w, 10))
  {
    Sum(TakeLast(w, 10)) / 10.0
  }

  /** The 20-day average divides by the number of closes it actually
      adds, so it is always a true mean. */
  function Sma20(w: seq<real>): (r: real)
    requires |w| >= 1
    ensures r == Mean(TakeLast(w, 20))
    ensures SeqMin(TakeLast(w, 20)) <= r <= SeqMax(TakeLast(w, 20))
  {
    MeanBounds(TakeLast(w, 20));
    Sum(TakeLast(w, 20)) / (if |w| < 20 then |w| else 20) as real
  }

  /** On a flat series shorter than five closes, the 5-day average scales
      the close down by |w|/5, and the 10-day average by |w|/10. */
  lemma ShortAverages(w: seq<real>, v: real)
    requires forall i :: 0 <= i < |w| ==> w[i] == v
    ensures |w| < 5 ==> Sma5(w) == |w| as real * v / 5.0
    ensures |w| < 10 ==> Sma10(w) == |w| as real * v / 10.0
  {
    SumBounds(w, v, v);
  }

  // ----- exponential moving average -----

  /** The EMA seeded with the first close and updated as
      close * k + ema * (1 - k) for each later close. */
  function Ema(s: seq<real>, k: real): real
    requires |s| >= 1
  {
    if |s| == 1 then s[0] else s[|s| - 1] * k + Ema(s[..|s| - 1], k) * (1.0 - k)
  }

  function Smoothing(period: nat): real {
    2.0 / (period as real + 1.0)
  }

  lemma {:induction false} EmaAtLeast(s: seq<real>, k: real, lo: real)
    requires |s| >= 1 && 0.0 <= k <= 1.0
    requires forall i :: 0 <= i < |s| ==> lo <= s[i]
    ensures lo <= Ema(s, k)
  {
    if |s| > 1 {
      EmaAtLeast(s[..|s| - 1], k, lo);
      ConvexAtLeast(s[|s| - 1], Ema(s[..|s| - 1], k), k, 1.0 - k, lo);
    }
  }

  lemma {:induction false} EmaAtMost(s: seq<real>, k: real, hi: real)
    requires |s| >= 1 && 0.0 <= k <= 1.0
    requires forall i :: 0 <= i < |s| ==> s[i] <= hi
    ensures Ema(s, k) <= hi
  {
    if |s| > 1 {
      EmaAtMost(s[..|s| - 1], k, hi);
      ConvexAtMost(s[|s| - 1], Ema(s[..|s| - 1], k), k, 1.0 - k, hi);
    }
  }

  /** With 0 <= k <= 1 every update is a convex combination, so the EMA
      never leaves the range of the closes. */
  lemma EmaBounds(s: seq<real>, k: real)
    requires |s| >= 1
    requires 0.0 <= k <= 1.0
    ensures SeqMin(s) <= Ema(s, k) <= SeqMax(s)
  {
    EmaAtLeast(s, k, SeqMin(s));
    EmaAtMost(s, k, SeqMax(s));
  }

  /** The EMA of a flat series is the flat value. */
  lemma {:induction false} EmaConstant(s: seq<real>, k: real, v: real)
    requires |s| >= 1
    requires forall i :: 0 <= i < |s| ==> s[i] == v
    ensures Ema(s, k) == v
  {
    if |s| > 1 {
      EmaConstant(s[..|s| - 1], k, v);
    }
  }

  method CalculateEma(closes: seq<real>, period: nat) returns (ema: real)
    requires |closes| >= 1
    ensures ema == Ema(closes, Smoothing(period))
    ensures period >= 1 ==> SeqMin(closes) <= ema <= SeqMax(closes)
  {
    var k := 2.0 / (period as real + 1.0);
    ema := closes[0];
    for i := 1 to |closes|
      invariant ema == Ema(closes[..i], k)
    {
      assert closes[..i + 1][..i] == closes[..i];
      ema := closes[i] * k + ema * (1.0 - k);
    }
    assert closes[..|closes|] == closes;
    if period >= 1 {
      EmaBounds(closes, k);
    }
  }

  // ----- linear regression -----

  /** Sum of index times value, as the regression's `reduce` adds it. */
  function SumXY(s: seq<real>): real {
    if s == [] then 0.0 else SumXY(s[..|s| - 1]) + (|s| - 1) as real * s[|s| - 1]
  }

  /** The sum of the indices 0 + 1 + ... + (n - 1), added up one index at
      a time. */
  function IndexSum(n: nat): real {
    if n == 0 then 0.0 else IndexSum(n - 1) + (n - 1) as real
  }

  /** The sum of the squared indices 0 + 1 + ... + (n - 1)^2, added up one
      index at a time. */
  function IndexSquareSum(n: nat): real {
    if n == 0 then 0.0 else IndexSquareSum(n - 1) + (n - 1) as real * (n - 1) as real
  }

  /** n (n - 1): twice the sum of the indices below n. */
  function TriangleTwice(n: int): int {
    n * (n - 1)
  }

  /** n (n - 1) (2n - 1): six times the sum of the squared indices below n. */
  function SquaresSixfold(n: int): int {
    n * (n - 1) * (2 * n - 1)
  }

  /** The regression's sumX, n (n - 1) / 2, in the closed form it uses. */
  function SumX(n: nat): real {
    TriangleTwice(n) as real / 2.0
  }

  /** The regression's sumX2, n (n - 1) (2n - 1) / 6, in closed form. */
  function SumX2(n: nat): real {
    SquaresSixfold(n) as real / 6.0
  }

  lemma TriangleStep(n: int)
    ensures TriangleTwice(n) == TriangleTwice(n - 1) + 2 * (n - 1)
  {
  }

  lemma SquaresStep(n: int)
    ensures SquaresSixfold(n) == SquaresSixfold(n - 1) + 6 * ((n - 1) * (n - 1))
  {
  }

  lemma CastProduct(x: int, y: int)
    ensures (x * y) as real == x as real * y as real
  {
  }

  /** The closed form sumX is the sum of the indices. */
  lemma {:induction false} SumXClosedForm(n: nat)
    ensures IndexSum(n) == SumX(n)
  {
    if n > 0 {
      SumXClosedForm(n - 1);
      TriangleStep(n);
    }
  }

  /** The closed form sumX2 is the sum of the squared indices. */
  lemma {:induction false} SumX2ClosedForm(n: nat)
    ensures IndexSquareSum(n) == SumX2(n)
  {
    if n > 0 {
      SumX2ClosedForm(n - 1);
      SquaresStep(n);
      CastProduct(n - 1, n - 1);
    }
  }

  /** The least-squares denominator n * sumX2 - sumX^2. */
  function Denominator(n: nat): (d: real)
    ensures d != 0.0 <==> n >= 2
  {
    DenominatorClosedForm(n);
    QuarticSign(n);
    n as real * SumX2(n) - SumX(n) * SumX(n)
  }

  /** Twelve times the denominator's closed form, n^2 (n^2 - 1). */
  function Quartic(n: int): int {
    n * n * (n * n - 1)
  }

  /** The denominator is n^2 (n^2 - 1) / 12. */
  lemma DenominatorClosedForm(n: nat)
    ensures n as real * SumX2(n) - SumX(n) * SumX(n) == Quartic(n) as real / 12.0
  {
    DenominatorPolynomial(n);
    DenominatorAlgebra(n, n as real, SumX(n), SumX2(n), TriangleTwice(n), SquaresSixfold(n), Quartic(n));
  }

  /** n^2 (n^2 - 1) is zero for n < 2 and positive from there on. */
  lemma QuarticSign(n: nat)
    ensures Quartic(n) > 0 <==> n >= 2
    ensures Quartic(n) == 0 <==> n < 2
  {
    if n >= 2 {
      MulPositiveInt(n * n, n * n - 1);
    }
  }

  lemma DenominatorPolynomial(n: int)
    ensures 2 * (n * SquaresSixfold(n)) - 3 * (TriangleTwice(n) * TriangleTwice(n)) == Quartic(n)
  {
  }

  /** n * sx2 - sx * sx from the integer closed forms t = 2 sx, s = 6 sx2. */
  lemma DenominatorAlgebra(n: int, nr: real, sx: real, sx2: real, t: int, s: int, k: int)
    requires nr == n as real
    requires sx == t as real / 2.0 && sx2 == s as real / 6.0
    requires 2 * (n * s) - 3 * (t * t) == k
    ensures nr * sx2 - sx * sx == k as real / 12.0
  {
    CastProduct(n, s);
    CastProduct(t, t);
  }

  lemma MulPositiveInt(a: int, b: int)
    requires a > 0 && b > 0
    ensures a * b > 0
  {
  }

  /** The fitted line's value at x = n, from the sums the regression
      collects and the denominator n * sum(x^2) - (sum x)^2. */
  function LineForecast(n: real, sumX: real, den: real, sumY: real, sumXY: real): real
    requires n != 0.0 && den != 0.0
  {
    var slope := (n * sumXY - sumX * sumY) / den;
    var intercept := (sumY - slope * sumX) / n;
    slope * n + intercept
  }

  /** The least-squares line through (i, prices[i]) evaluated one step past
      the last index. With fewer than two prices the denominator is zero and
      the line is undefined (NaN in the original): None. */
  function Regression(prices: seq<real>): (r: Option<real>)
    ensures r.Some? <==> |prices| >= 2
  {
    Fit(|prices|, Sum(prices), SumXY(prices))
  }

  /** The fit from the number of points and the two sums that depend on
      the prices. The original divides by Denominator(n) unconditionally;
      that is zero exactly when n < 2, which is the case answered None. */
  function Fit(n: nat, sumY: real, sumXY: real): (r: Option<real>)
    ensures r.Some? <==> n >= 2
  {
    if n < 2 then None
    else Some(LineForecast(n as real, SumX(n), Denominator(n), sumY, sumXY))
  }

  /** The prices lie exactly on the line a + b * i. */
  predicate OnLine(p: seq<real>, a: real, b: real) {
    forall i :: 0 <= i < |p| ==> p[i] == a + b * i as real
  }

  /** The two price sums of n points on the line a + b * i. */
  predicate OnLineSums(n: nat, a: real, b: real, sumY: real, sumXY: real) {
    && sumY == n as real * a + b * IndexSum(n)
    && sumXY == a * IndexSum(n) + b * IndexSquareSum(n)
  }

  lemma LineSums(p: seq<real>, a: real, b: real)
    requires OnLine(p, a, b)
    ensures OnLineSums(|p|, a, b, Sum(p), SumXY(p))
  {
    SumOnLine(p, a, b);
    SumXYOnLine(p, a, b);
  }

  /** Swaps the index sums for the equal closed forms. */
  lemma ReplaceSums(n: real, a: real, b: real, sumY: real, sumXY: real,
                    sx: real, sxc: real, sx2: real, sx2c: real)
    requires sumY == n * a + b * sx && sumXY == a * sx + b * sx2
    requires sx == sxc && sx2 == sx2c
    ensures sumY == n * a + b * sxc && sumXY == a * sxc + b * sx2c
  {
  }

  lemma {:induction false} SumOnLine(p: seq<real>, a: real, b: real)
    requires forall i :: 0 <= i < |p| ==> p[i] == a + b * i as real
    ensures Sum(p) == |p| as real * a + b * IndexSum(|p|)
  {
    if p != [] {
      var init := p[..|p| - 1];
      SumOnLine(init, a, b);
      SumStep(|init| as real, (|p| - 1) as real, |p| as real, a, b, p[|p| - 1],
        IndexSum(|init|), IndexSum(|p|), Sum(init), Sum(p));
    }
  }

  lemma {:induction false} SumXYOnLine(p: seq<real>, a: real, b: real)
    requires forall i :: 0 <= i < |p| ==> p[i] == a + b * i as real
    ensures SumXY(p) == a * IndexSum(|p|) + b * IndexSquareSum(|p|)
  {
    if p != [] {
      var init := p[..|p| - 1];
      SumXYOnLine(init, a, b);
      SumXYStep((|p| - 1) as real, a, b, p[|p| - 1],
        IndexSum(|init|), IndexSum(|p|), IndexSquareSum(|init|), IndexSquareSum(|p|),
        SumXY(init), SumXY(p));
    }
  }

  /** One step of SumOnLine: adding the point (m, a + b * m). Every product
      appears here exactly as at the call site. */
  lemma SumStep(mi: real, m: real, m1: real, a: real, b: real, y: real,
                sx: real, sx1: real, sy: real, sy1: real)
    requires mi == m && m1 == m + 1.0
    requires y == a + b * m
    requires sy == mi * a + b * sx
    requires sx1 == sx + m
    requires sy1 == sy + y
    ensures sy1 == m1 * a + b * sx1
  {
    assert mi * a == m * a;
    assert m1 * a == m * a + a;
  }

  /** One step of SumXYOnLine. */
  lemma SumXYStep(m: real, a: real, b: real, y: real,
                  sx: real, sx1: real, sx2: real, sx21: real, sxy: real, sxy1: real)
    requires y == a + b * m
    requires sxy == a * sx + b * sx2
    requires sx1 == sx + m && sx21 == sx2 + m * m
    requires sxy1 == sxy + m * y
    ensures sxy1 == a * sx1 + b * sx21
  {
    assert m * y == m * a + b * (m * m);
  }

  /** The regression's algebra on the sums of a line. */
  lemma LineForecastOfLine(n: real, a: real, b: real, sx: real, sx2: real, den: real, sumY: real, sumXY: real)
    requires n != 0.0 && den == n * sx2 - sx * sx && den != 0.0
    requires sumY == n * a + b * sx && sumXY == a * sx + b * sx2
    ensures LineForecast(n, sx, den, sumY, sumXY) == a + b * n
  {
    assert n * sumXY - sx * sumY == b * den;
    assert (n * sumXY - sx * sumY) / den == b;
    assert (sumY - b * sx) / n == a;
  }

  /** The same two sums, with the closed forms the regression uses. */
  predicate OnLineClosedSums(n: nat, a: real, b: real, sumY: real, sumXY: real) {
    && sumY == n as real * a + b * SumX(n)
    && sumXY == a * SumX(n) + b * SumX2(n)
  }

  lemma ClosedLineSums(n: nat, a: real, b: real, sumY: real, sumXY: real)
    requires OnLineSums(n, a, b, sumY, sumXY)
    ensures OnLineClosedSums(n, a, b, sumY, sumXY)
  {
    SumXClosedForm(n);
    SumX2ClosedForm(n);
    ReplaceSums(n as real, a, b, sumY, sumXY, IndexSum(n), SumX(n), IndexSquareSum(n), SumX2(n));
  }

  lemma FitOfLine(n: nat, a: real, b: real, sumY: real, sumXY: real)
    requires n >= 2 && OnLineClosedSums(n, a, b, sumY, sumXY)
    ensures Fit(n, sumY, sumXY).Some? && Fit(n, sumY, sumXY).value == a + b * n as real
  {
    LineForecastOfLine(n as real, a, b, SumX(n), SumX2(n), Denominator(n), sumY, sumXY);
  }

  /** On prices that lie exactly on a line a + b * i the regression
      recovers the line and extrapolates it: a + b * n. */
  lemma RegressionOnLine(p: seq<real>, a: real, b: real)
    requires |p| >= 2 && OnLine(p, a, b)
    ensures Regression(p).Some? && Regression(p).value == a + b * |p| as real
  {
    LineSums(p, a, b);
    ClosedLineSums(|p|, a, b, Sum(p), SumXY(p));
    FitOfLine(|p|, a, b, Sum(p), SumXY(p));
    FromFit(p, a + b * |p| as real);
  }

  lemma FromFit(p: seq<real>, v: real)
    requires Fit(|p|, Sum(p), SumXY(p)).Some? && Fit(|p|, Sum(p), SumXY(p)).value == v
    ensures Regression(p).Some? && Regression(p).value == v
  {
  }

  /** The regression of a flat series is the flat value. */
  lemma FlatRegression(p: seq<real>, v: real)
    requires |p| >= 2
    requires forall i :: 0 <= i < |p| ==> p[i] == v
    ensures Regression(p).Some? && Regression(p).value == v
  {
    forall i | 0 <= i < |p|
      ensures p[i] == v + 0.0 * i as real
    {
    }
    assert OnLine(p, v, 0.0);
    RegressionOnLine(p, v, 0.0);
    assert v + 0.0 * |p| as real == v;
  }

  // ----- returns and volatility -----

  /** Day-over-day relative changes. */
  function Returns(prices: seq<real>): (r: seq<real>)
    requires Positive(prices)
    ensures |r| == if prices == [] then 0 else |prices| - 1
    ensures forall i :: 0 <= i < |r| ==> r[i] > -1.0
  {
    if prices == [] then []
    else seq(|prices| - 1, i requires 0 <= i < |prices| - 1 => (prices[i + 1] - prices[i]) / prices[i])
  }

  method ComputeReturns(prices: seq<real>) returns (dailyReturns: seq<real>)
    requires Positive(prices)
    ensures dailyReturns == Returns(prices)
  {
    dailyReturns := [];
    var i := 1;
    while i < |prices|
      invariant 1 <= i <= |prices| || (prices == [] && i == 1)
      invariant |dailyReturns| == i - 1
      invariant forall j :: 0 <= j < i - 1 ==> dailyReturns[j] == (prices[j + 1] - prices[j]) / prices[j]
    {
      dailyReturns := dailyReturns + [(prices[i] - prices[i - 1]) / prices[i - 1]];
      i := i + 1;
    }
  }

  function SumSquares(s: seq<real>, m: real): (r: real)
    ensures r >= 0.0
  {
    if s == [] then 0.0
    else
      SquareNonNegative(s[|s| - 1] - m);
      SumSquares(s[..|s| - 1], m) + (s[|s| - 1] - m) * (s[|s| - 1] - m)
  }

  /** Population variance (divides by n). */
  function Variance(s: seq<real>): (r: real)
    requires |s| >= 1
    ensures r >= 0.0
  {
    SumSquares(s, Mean(s)) / |s| as real
  }

  lemma {:induction false} SumSquaresAtConstant(s: seq<real>, v: real)
    requires forall i :: 0 <= i < |s| ==> s[i] == v
    ensures SumSquares(s, v) == 0.0
  {
    if s != [] {
      SumSquaresAtConstant(s[..|s| - 1], v);
    }
  }

  /** A flat series has zero variance. */
  lemma VarianceConstant(s: seq<real>, v: real)
    requires |s| >= 1
    requires forall i :: 0 <= i < |s| ==> s[i] == v
    ensures Variance(s) == 0.0
  {
    MeanConstant(s, v);
    SumSquaresAtConstant(s, v);
  }

  /** Standard deviation of the daily returns of the window. */
  function Volatility(window: seq<real>, sqrt: real -> real): (v: real)
    requires |window| >= 2 && Positive(window) && IsSqrt(sqrt)
    ensures v >= 0.0
    ensures v * v == Variance(Returns(window))
  {
    sqrt(Variance(Returns(window)))
  }

  /** Flat prices have no volatility. */
  lemma FlatVolatility(window: seq<real>, v: real, sqrt: real -> real)
    requires |window| >= 2 && IsSqrt(sqrt)
    requires v > 0.0 && forall i :: 0 <= i < |window| ==> window[i] == v
    ensures Volatility(window, sqrt) == 0.0
  {
    var r := Returns(window);
    assert forall i :: 0 <= i < |r| ==> r[i] == 0.0;
    VarianceConstant(r, 0.0);
  }

  // ----- ensemble -----

  /** The five component estimates, in the order they are weighed. */
  datatype Components = Components(sma5: real, sma10: real, ema12: real, regression: real, momentum: real)

  function Lowest(c: Components): real {
    Min(Min(Min(Min(c.sma5, c.sma10), c.ema12), c.regression), c.momentum)
  }

  function Highest(c: Components): real {
    Max(Max(Max(Max(c.sma5, c.sma10), c.ema12), c.regression), c.momentum)
  }

  /** Weights 0.15, 0.15, 0.25, 0.25 and 0.20 sum to one, so the blend is a
      convex combination: it lies between the lowest and the highest
      component, and equals v when every component does. */
  function Ensemble(c: Components): (r: real)
    ensures Lowest(c) <= r <= Highest(c)
  {
    0.0 + c.sma5 * 0.15 + c.sma10 * 0.15 + c.ema12 * 0.25 + c.regression * 0.25 + c.momentum * 0.20
  }

  /** Confidence in percent: 60% from price stability (1 minus ten times
      the volatility, floored at 0.5) and 40% from data quantity (the number
      of closes over 100, capped at 1). It exceeds 30, is at most 100, and
      reaches 100 exactly for a volatility of zero with at least 100
      closes. */
  function Confidence(volatility: real, dataLength: nat): (c: real)
    requires volatility >= 0.0 && dataLength >= 1
    ensures 30.0 < c <= 100.0
    ensures c == 100.0 <==> volatility == 0.0 && dataLength >= 100
  {
    var priceStability := 1.0 - Min(volatility * 10.0, 0.5);
    var dataQuality := Min(dataLength as real / 100.0, 1.0);
    (priceStability * 0.6 + dataQuality * 0.4) * 100.0
  }

  datatype Indicators = Indicators(sma5: real, sma10: real, sma20: real, ema12: real, momentum: real, trendStrength: real)

  /** The forecast record; `volatility` and `trendStrength` are in percent. */
  datatype NextDay = NextDay(
    predictedPrice: real,
    confidence: real,
    upperBound: real,
    lowerBound: real,
    currentPrice: real,
    change: real,
    volatility: real,
    components: Components,
    indicators: Indicators)

  function Last(s: seq<real>): real
    requires |s| >= 1
  {
    s[|s| - 1]
  }

  /** The momentum estimate: the last close moved by 30% of the window's
      relative change from its first close to its last. */
  function MomentumEstimate(lastPrice: real, w: seq<real>): real
    requires |w| >= 1 && w[0] > 0.0
  {
    var momentum := Last(w) - w[0];
    var trendStrength := momentum / w[0];
    lastPrice * (1.0 + trendStrength * 0.3)
  }

  /** The five estimates, computed over the window of the last thirty
      closes. */
  function ComponentsOf(closes: seq<real>, ema12: real): Components
    requires |closes| >= 2 && Positive(closes)
  {
    var w := Window(closes);
    Components(Sma5(w), Sma10(w), ema12, Regression(w).value, MomentumEstimate(Last(closes), w))
  }

  /** Percentage change from a positive reference price; its sign is the
      direction of the move. */
  function PercentChange(price: real, reference: real): (c: real)
    requires reference > 0.0
    ensures c > 0.0 <==> price > reference
    ensures c == 0.0 <==> price == reference
    ensures c < 0.0 <==> price < reference
  {
    QuotientSign(price - reference, reference);
    (price - reference) / reference * 100.0
  }

  /** Half the width of the 95% band: 1.96 standard deviations of the
      daily returns, in price units. */
  function HalfBand(volatility: real, price: real): (h: real)
    requires volatility >= 0.0 && price > 0.0
    ensures h >= 0.0
    ensures h == 0.0 <==> volatility == 0.0
  {
    MulNonNegative(volatility, price);
    if volatility > 0.0 then
      MulPositive(volatility, price);
      1.96 * (volatility * price)
    else
      1.96 * (volatility * price)
  }

  /** Assembles the forecast from the window's statistics. */
  function Assemble(closes: seq<real>, ema12: real, volatility: real): (r: NextDay)
    requires |closes| >= 2 && Positive(closes) && volatility >= 0.0
    ensures r.currentPrice == Last(closes)
    ensures r.components == ComponentsOf(closes, ema12)
    ensures r.predictedPrice == Ensemble(r.components)
    ensures r.confidence == Confidence(volatility, |closes|)
    ensures r.indicators.momentum == Last(Window(closes)) - Window(closes)[0]
    ensures r.indicators.sma5 == Sma5(Window(closes)) && r.indicators.sma10 == Sma10(Window(closes))
    ensures r.indicators.sma20 == Sma20(Window(closes)) && r.indicators.ema12 == ema12
    ensures Window(closes)[0] > 0.0 &&
            r.indicators.trendStrength == r.indicators.momentum / Window(closes)[0] * 100.0
    ensures r.change == PercentChange(r.predictedPrice, r.currentPrice)
    ensures r.volatility == volatility * 100.0
    ensures Lowest(r.components) <= r.predictedPrice <= Highest(r.components)
    ensures r.lowerBound <= r.predictedPrice <= r.upperBound
    ensures r.upperBound - r.predictedPrice == r.predictedPrice - r.lowerBound == HalfBand(volatility, r.currentPrice)
    ensures 30.0 < r.confidence <= 100.0
    ensures r.change > 0.0 <==> r.predictedPrice > r.currentPrice
    ensures r.change == 0.0 <==> r.predictedPrice == r.currentPrice
    ensures r.change < 0.0 <==> r.predictedPrice < r.currentPrice
  {
    var w := Window(closes);
    assert w[0] == closes[|closes| - |w|] > 0.0;
    var c := ComponentsOf(closes, ema12);
    var prediction := Ensemble(c);
    var lastPrice := Last(closes);
    assert lastPrice > 0.0;
    var halfBand := HalfBand(volatility, lastPrice);
    var momentum := Last(w) - w[0];
    NextDay(
      prediction,
      Confidence(volatility, |closes|),
      prediction + halfBand,
      prediction - halfBand,
      lastPrice,
      PercentChange(prediction, lastPrice),
      volatility * 100.0,
      c,
      Indicators(Sma5(w), Sma10(w), Sma20(w), ema12, momentum, momentum / w[0] * 100.0))
  }

  /** The forecast for the day after the last close, or None when there are
      fewer than two closes (the regression and the volatility are then
      undefined). */
  function NextDayPrediction(closes: seq<real>, sqrt: real -> real): (r: Option<NextDay>)
    requires Positive(closes) && IsSqrt(sqrt)
    ensures r.Some? <==> |closes| >= 2
    ensures r.Some? ==> r.value.currentPrice == Last(closes)
    ensures r.Some? ==> r.value.indicators.momentum == Last(Window(closes)) - Window(closes)[0]
    ensures r.Some? ==> r.value.change == PercentChange(r.value.predictedPrice, r.value.currentPrice)
  {
    if |closes| < 2 then None
    else
      var w := Window(closes);
      Some(Assemble(closes, Ema(w, Smoothing(12)), Volatility(w, sqrt)))
  }

  method GenerateNextDayPrediction(closes: seq<real>, sqrt: real -> real) returns (r: Option<NextDay>)
    requires Positive(closes) && IsSqrt(sqrt)
    ensures r == NextDayPrediction(closes, sqrt)
    ensures r.Some? <==> |closes| >= 2
    ensures r.Some? ==> r.value.lowerBound <= r.value.predictedPrice <= r.value.upperBound
    ensures r.Some? ==> 30.0 < r.value.confidence <= 100.0
    ensures r.Some? ==> Lowest(r.value.components) <= r.value.predictedPrice <= Highest(r.value.components)
  {
    if |closes| < 2 {
      return None;
    }
    var w := Window(closes);
    var ema12 := CalculateEma(w, 12);
    var dailyReturns := ComputeReturns(w);
    var volatility := sqrt(Variance(dailyReturns));
    r := Some(Assemble(closes, ema12, volatility));
  }

  lemma FlatMomentum(lastPrice: real, w: seq<real>, v: real)
    requires |w| >= 1 && v > 0.0 && lastPrice == v
    requires forall i :: 0 <= i < |w| ==> w[i] == v
    ensures MomentumEstimate(lastPrice, w) == v
  {
    assert (Last(w) - w[0]) / w[0] == 0.0;
  }

  /** Over a flat window of at least ten closes every estimate is the flat
      value. */
  lemma FlatComponents(closes: seq<real>, v: real)
    requires |closes| >= 10 && v > 0.0
    requires forall i :: 0 <= i < |closes| ==> closes[i] == v
    ensures ComponentsOf(closes, v) == Components(v, v, v, v, v)
  {
    var w := Window(closes);
    assert forall i :: 0 <= i < |w| ==> w[i] == v;
    MeanConstant(TakeLast(w, 5), v);
    MeanConstant(TakeLast(w, 10), v);
    FlatRegression(w, v);
    FlatMomentum(Last(closes), w, v);
  }

  /** A series flat at v over at least ten closes forecasts v itself, with
      a zero change, a collapsed band, and a HOLD. */
  lemma FlatSeriesForecast(closes: seq<real>, v: real, sqrt: real -> real)
    requires |closes| >= 10 && IsSqrt(sqrt)
    requires v > 0.0 && forall i :: 0 <= i < |closes| ==> closes[i] == v
    ensures NextDayPrediction(closes, sqrt).Some?
    ensures var f := NextDayPrediction(closes, sqrt).value;
      f.predictedPrice == v && f.change == 0.0 && f.lowerBound == v == f.upperBound
      && Classify(f.change, f.confidence) == Hold
  {
    var w := Window(closes);
    assert forall i :: 0 <= i < |w| ==> w[i] == v;
    EmaConstant(w, Smoothing(12), v);
    FlatVolatility(w, v, sqrt);
    FlatComponents(closes, v);
    var f := Assemble(closes, v, 0.0);
    assert f.predictedPrice == Ensemble(Components(v, v, v, v, v));
  }

  /** Momentum is the last close minus the first close of the window: for
      the closes 100, 102, 99 it is -1. */
  lemma MomentumExample(closes: seq<real>, sqrt: real -> real)
    requires closes == [100.0, 102.0, 99.0] && IsSqrt(sqrt)
    ensures NextDayPrediction(closes, sqrt).Some?
    ensures NextDayPrediction(closes, sqrt).value.indicators.momentum == -1.0
  {
    assert Positive(closes);
    assert Window(closes) == closes;
  }

  /** Momentum only looks at the last thirty closes: with more than thirty,
      it is the last close minus the close thirty places from the end. */
  lemma MomentumOfLongSeries(closes: seq<real>, sqrt: real -> real)
    requires |closes| > 30 && Positive(closes) && IsSqrt(sqrt)
    ensures NextDayPrediction(closes, sqrt).value.indicators.momentum == Last(closes) - closes[|closes| - 30]
  {
    var w := Window(closes);
    assert w[0] == closes[|closes| - 30] && Last(w) == Last(closes);
  }

  lemma MulStrict(a: real, b: real, c: real)
    requires a < b && c > 0.0
    ensures a * c < b * c
  {
  }

  /** On a flat window shorter than ten closes the 10-day average falls
      short of the flat value and the 5-day average does not exceed it. */
  lemma ShortAveragesBelow(w: seq<real>, v: real)
    requires 2 <= |w| < 10 && v > 0.0
    requires forall i :: 0 <= i < |w| ==> w[i] == v
    ensures Sma5(w) <= v && Sma10(w) < v
  {
    ShortSma5AtMost(w, v);
    ShortSma10Below(w, v);
  }

  lemma ShortSma5AtMost(w: seq<real>, v: real)
    requires |w| < 10 && v > 0.0
    requires forall i :: 0 <= i < |w| ==> w[i] == v
    ensures Sma5(w) <= v
  {
    var five := TakeLast(w, 5);
    assert forall i :: 0 <= i < |five| ==> five[i] == v;
    SumBounds(five, v, v);
    MulMonotone(|five| as real, 5.0, v);
    DivBounds(Sum(five), 5.0, Sum(five) / 5.0, v);
  }

  lemma ShortSma10Below(w: seq<real>, v: real)
    requires |w| < 10 && v > 0.0
    requires forall i :: 0 <= i < |w| ==> w[i] == v
    ensures Sma10(w) < v
  {
    assert TakeLast(w, 10) == w;
    SumBounds(w, v, v);
    assert Sum(w) <= |w| as real * v;
    MulStrict(|w| as real, 10.0, v);
    assert Sum(w) < 10.0 * v;
    QuotientBelow(Sum(w), 10.0, v);
  }

  /** x / n stays below v when x is below n * v. */
  lemma QuotientBelow(x: real, n: real, v: real)
    requires n > 0.0 && x < n * v
    ensures x / n < v
  {
    assert x / n * n == x;
  }

  lemma EnsembleBelow(c: Components, v: real)
    requires c.sma5 <= v && c.sma10 < v && c.ema12 == c.regression == c.momentum == v
    ensures Ensemble(c) < v
  {
  }

  /** With fewer than ten closes the fixed divisors of the 5- and 10-day
      averages drag the blend below a flat series: the forecast is a
      drop. */
  lemma ShortFlatSeriesForecastsDrop(closes: seq<real>, v: real, sqrt: real -> real)
    requires 2 <= |closes| < 10 && IsSqrt(sqrt)
    requires v > 0.0 && forall i :: 0 <= i < |closes| ==> closes[i] == v
    ensures NextDayPrediction(closes, sqrt).Some?
    ensures NextDayPrediction(closes, sqrt).value.predictedPrice < v
    ensures NextDayPrediction(closes, sqrt).value.change < 0.0
  {
    var w := Window(closes);
    assert w == closes;
    ShortAveragesBelow(w, v);
    EmaConstant(w, Smoothing(12), v);
    FlatRegression(w, v);
    FlatMomentum(Last(closes), w, v);
    var c := ComponentsOf(closes, Ema(w, Smoothing(12)));
    assert c == Components(Sma5(w), Sma10(w), v, v, v);
    EnsembleBelow(c, v);
  }
}
