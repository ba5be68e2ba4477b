/** The direction of a trend: fitDirection of internal/report/trend.go, from the line it fits to the gates a
    direction has to pass. */
module Trends {
  import opened Arith
  import opened Grids
  import opened RealSums
  import opened Regression

  const MIN_TREND_SAMPLE := 5
  const MIN_TREND_R2 := 0.25
  const MIN_TREND_T := 2.0
  const MIN_SLOPE := 0.05
  const MIN_SCALE := 0.000000001

  datatype Direction = Stable | Improving | Worsening

  /** confident stands for the confidence "high". */
  datatype TrendFit = TrendFit(direction: Direction, confident: bool, rSquared: real)

  // ----- Times and scale

  /** Seconds from the first point. */
  function Elapsed(times: seq<real>): (xs: seq<real>)
    ensures |xs| == |times|
  {
    seq(|times|, i requires 0 <= i < |times| => times[i] - times[0])
  }

  /** The greatest absolute value. */
  ghost predicate Largest(ys: seq<real>, m: real) {
    (forall y :: y in ys ==> Abs(y) <= m) && exists y :: y in ys && Abs(y) == m
  }

  /** What the slope is measured against: the mean, or where that vanishes the largest value. */
  ghost predicate IsScale(ys: seq<real>, mean: real, scale: real) {
    if Abs(mean) >= 0.000000001 then scale == Abs(mean) else Largest(ys, scale)
  }

  method MaxFloat(ys: seq<real>) returns (v: real)
    requires ys != []
    ensures v in ys && forall y :: y in ys ==> y <= v
  {
    v := ys[0];
    for i := 1 to |ys|
      invariant v in ys && forall k :: 0 <= k < i ==> ys[k] <= v
    {
      if ys[i] > v {
        v := ys[i];
      }
    }
  }

  method MinFloat(ys: seq<real>) returns (v: real)
    requires ys != []
    ensures v in ys && forall y :: y in ys ==> v <= y
  {
    v := ys[0];
    for i := 1 to |ys|
      invariant v in ys && forall k :: 0 <= k < i ==> v <= ys[k]
    {
      if ys[i] < v {
        v := ys[i];
      }
    }
  }

  method ScaleOf(ys: seq<real>, mean: real) returns (scale: real)
    requires ys != []
    ensures IsScale(ys, mean, scale)
  {
    scale := Abs(mean);
    if scale < MIN_SCALE {
      var hi := MaxFloat(ys);
      var lo := MinFloat(ys);
      scale := if Abs(hi) < Abs(lo) then Abs(lo) else Abs(hi);
    }
  }

  // ----- The test of the slope

  /** The t-statistic is two or more, which it also is of a slope that leaves no error. */
  ghost predicate Significant(n: nat, slope: real, spread: real, ssRes: real) {
    slope != 0.0 && slope * slope * spread * (n - 2) as real >= 4.0 * ssRes
  }

  /** The slope over its standard error, and whether it is large; a perfect fit has the largest there is. */
  method Tested(sqrt: real -> real, n: nat, slope: real, spread: real, ssRes: real) returns (large: bool)
    requires IsSqrt(sqrt) && n > 2 && spread > 0.0 && ssRes >= 0.0
    ensures large <==> Significant(n, slope, spread, ssRes)
  {
    var varRes := Quotient(ssRes, (n - 2) as real);
    var square := Quotient(varRes, spread);
    QuotientSign(varRes, (n - 2) as real, ssRes);
    QuotientSign(square, spread, varRes);
    var stdErr := sqrt(square);
    if stdErr > 0.0 {
      var t := Quotient(slope, stdErr);
      large := Abs(t) >= MIN_TREND_T;
      SquareZero(stdErr, square);
      TwiceTheError(t, stdErr, square, slope);
      ScaledError(n, slope, spread, varRes, square, ssRes);
    } else {
      large := slope != 0.0;
      NoError(n, slope, spread, varRes, square, ssRes);
    }
  }

  lemma QuotientSign(q: real, b: real, a: real)
    requires b > 0.0 && q * b == a && a >= 0.0
    ensures q >= 0.0 && (q == 0.0 <==> a == 0.0)
  {
  }

  /** A quotient is two or more when the squares say so. */
  lemma TwiceTheError(t: real, e: real, square: real, slope: real)
    requires square > 0.0 && e * e == square && t * e == slope
    ensures Abs(t) >= MIN_TREND_T <==> slope * slope >= 4.0 * square
  {
    SquareOfProduct(t, e);
    var u, uu := Abs(t), t * t;
    assert u * u == uu && slope * slope == uu * square;
    if u >= 2.0 {
      Grows(2.0, u, u);
      Grows(4.0, uu, square);
    } else {
      Grows(u, 2.0, u);
      Below(uu, 4.0, square);
    }
  }

  lemma Grows(a: real, b: real, c: real)
    requires a <= b && c >= 0.0
    ensures a * c <= b * c
  {
  }

  lemma Below(a: real, b: real, c: real)
    requires a < b && c > 0.0
    ensures a * c < b * c
  {
  }

  /** The test on the slope, in terms of the sums behind the standard error. */
  lemma ScaledError(n: nat, slope: real, spread: real, varRes: real, square: real, ssRes: real)
    requires n > 2 && spread > 0.0 && varRes * (n - 2) as real == ssRes && square * spread == varRes && square > 0.0
    ensures slope * slope >= 4.0 * square <==> Significant(n, slope, spread, ssRes)
  {
    var k := (n - 2) as real;
    var w := spread * k;
    assert w > 0.0;
    assert square * w == ssRes by { Assoc(square, spread, k); }
    Assoc(slope * slope, spread, k);
    if slope * slope >= 4.0 * square {
      Grows(4.0 * square, slope * slope, w);
      Assoc(4.0, square, w);
    } else {
      Below(slope * slope, 4.0 * square, w);
      Assoc(4.0, square, w);
    }
  }

  lemma Assoc(a: real, b: real, c: real)
    ensures a * b * c == a * (b * c)
  {
  }

  lemma NoError(n: nat, slope: real, spread: real, varRes: real, square: real, ssRes: real)
    requires n > 2 && spread > 0.0 && varRes * (n - 2) as real == ssRes && square * spread == varRes && square == 0.0
    ensures slope != 0.0 <==> Significant(n, slope, spread, ssRes)
  {
    assert varRes == 0.0 && ssRes == 0.0;
    SquareNonNegative(slope);
    Grows(0.0, slope * slope, spread);
    Grows(0.0, slope * slope * spread, (n - 2) as real);
  }

  /** The t-test is a test on R²: it is passed exactly from 4 / (n + 2) on. */
  lemma TestIsRSquared(n: nat, slope: real, spread: real, ssRes: real, ssTot: real, rSquared: real)
    requires n > 2 && spread > 0.0 && ssRes >= 0.0 && ssTot == ssRes + slope * slope * spread
    requires Explains(rSquared, ssRes, ssTot)
    ensures Significant(n, slope, spread, ssRes) <==> rSquared * (n + 2) as real >= 4.0
  {
    var k, ex := (n - 2) as real, slope * slope * spread;
    SquareNonNegative(slope);
    Grows(0.0, slope * slope, spread);
    if ssTot > 0.0 {
      assert rSquared * ssTot == ex;
      TestOfShare(rSquared, ssTot, ex, k, ssRes);
      assert (n + 2) as real == k + 4.0;
      if slope == 0.0 { assert ex == 0.0; }
      if rSquared == 0.0 { assert ex == 0.0; }
      NonZeroExplains(slope, spread, ex);
    } else {
      NonZeroExplains(slope, spread, ex);
    }
  }

  lemma TestOfShare(r: real, total: real, ex: real, k: real, res: real)
    requires total > 0.0 && r * total == ex && res == total - ex
    ensures ex * k >= 4.0 * res <==> r * (k + 4.0) >= 4.0
  {
    var x := r * (k + 4.0);
    Distributes(ex, k, 4.0);
    assert ex * (k + 4.0) == x * total by {
      Assoc(r, total, k + 4.0);
      Assoc(r, k + 4.0, total);
    }
    if x >= 4.0 {
      Grows(4.0, x, total);
    } else {
      Below(x, 4.0, total);
    }
  }

  lemma NonZeroExplains(slope: real, spread: real, ex: real)
    requires spread > 0.0 && ex == slope * slope * spread
    ensures ex == 0.0 <==> slope == 0.0
  {
    SquareZero(slope, slope * slope);
    ZeroProduct(spread, slope * slope);
  }

  /** From 14 points on, the bound on R² implies the t-test; up to 14, the t-test implies the bound on R². */
  lemma GatesCross(n: nat, rSquared: real)
    requires rSquared >= 0.0
    ensures n >= 14 && rSquared >= MIN_TREND_R2 ==> rSquared * (n + 2) as real >= 4.0
    ensures n <= 14 && rSquared * (n + 2) as real >= 4.0 ==> rSquared >= MIN_TREND_R2
  {
    var m := (n + 2) as real;
    if n >= 14 && rSquared >= MIN_TREND_R2 {
      Grows(MIN_TREND_R2, rSquared, m);
    }
    if n <= 14 {
      Grows(m, 16.0, rSquared);
    }
  }

  // ----- The direction

  /** How far the fit moves per scan, relative to the scale, is five percent or more. */
  ghost predicate Moves(n: nat, slope: real, range: real, scale: real) {
    Abs(slope * range) >= 0.05 * (n - 1) as real * scale
  }

  /** What a direction takes: enough points that differ in time from first to last, values that are not all nought, a
      slope that moves the values, and a fit that explains enough of them. */
  ghost predicate Commits(times: seq<real>, slope: real, scale: real, rSquared: real) {
    && |times| >= 5 && times[|times| - 1] != times[0] && scale >= 0.000000001
    && Moves(|times|, slope, times[|times| - 1] - times[0], scale)
    && rSquared >= 0.25 && rSquared * (|times| + 2) as real >= 4.0
  }

  ghost predicate Fitted(times: seq<real>) {
    |times| >= 5 && !AllEqual(|times|, Of(Elapsed(times)))
  }

  /** The slope of the relative change, five percent or more. */
  method Steep(n: nat, slope: real, range: real, scale: real) returns (steep: bool)
    requires n > 1 && scale > 0.0
    ensures steep <==> Moves(n, slope, range, scale)
  {
    var step := Quotient(range, (n - 1) as real);
    var relative := Quotient(slope * step, scale);
    steep := Abs(relative) >= MIN_SLOPE;
    StepScaled(slope, range, (n - 1) as real, step, scale, relative);
  }

  lemma StepScaled(slope: real, range: real, k: real, step: real, scale: real, relative: real)
    requires k > 0.0 && scale > 0.0 && step * k == range && relative * scale == slope * step
    ensures Abs(relative) >= MIN_SLOPE <==> Abs(slope * range) >= MIN_SLOPE * k * scale
  {
    var w, size := k * scale, Abs(relative);
    assert slope * range == relative * w by {
      Assoc(slope, step, k);
      Assoc(relative, scale, k);
    }
    assert MIN_SLOPE * k * scale == MIN_SLOPE * w by {
      Assoc(MIN_SLOPE, k, scale);
    }
    assert w > 0.0;
    AbsScaled(relative, w);
    assert Abs(slope * range) == size * w;
    CompareScaled(size, MIN_SLOPE, w);
  }

  lemma CompareScaled(a: real, b: real, w: real)
    requires w > 0.0
    ensures a >= b <==> a * w >= b * w
  {
    if a >= b {
      Grows(b, a, w);
    } else {
      Below(a, b, w);
    }
  }

  lemma AbsScaled(a: real, w: real)
    requires w > 0.0
    ensures Abs(a * w) == Abs(a) * w
  {
    if a < 0.0 {
      Below(a, 0.0, w);
      Assoc(-1.0, a, w);
    } else {
      Grows(0.0, a, w);
    }
  }

  /** The direction of a trend: worsening or improving by the sign of the slope exactly when the line commits to one. */
  method FitDirection(sqrt: real -> real, times: seq<real>, ys: seq<real>, upIsBad: bool)
    returns (fit: TrendFit, ghost slope: real, ghost intercept: real, ghost scale: real)
    requires IsSqrt(sqrt) && |times| == |ys|
    ensures Fitted(times) ==>
              && Normal(|ys|, Of(Elapsed(times)), Of(ys), slope, intercept)
              && IsScale(ys, MeanOf(|ys|, Of(ys)), scale)
              && Explains(fit.rSquared, SquaredError(|ys|, Of(Elapsed(times)), Of(ys), slope, intercept),
                          Scatter(|ys|, Of(ys), MeanOf(|ys|, Of(ys))))
    ensures !Fitted(times) ==> fit == TrendFit(Stable, false, 0.0)
    ensures fit.direction != Stable <==> Fitted(times) && Commits(times, slope, scale, fit.rSquared)
    ensures fit.direction != Stable ==> (fit.direction == Worsening <==> (slope > 0.0 <==> upIsBad))
    ensures fit.confident <==> fit.direction != Stable || (Fitted(times) && scale < MIN_SCALE)
  {
    hide IsScale, Normal, SquaredError, Scatter, MeanOf, AllEqual, Explains, Significant, Moves;
    slope, intercept, scale := 0.0, 0.0, 0.0;
    if |times| < MIN_TREND_SAMPLE {
      return TrendFit(Stable, false, 0.0), 0.0, 0.0, 0.0;
    }
    var n, xs := |times|, Elapsed(times);
    var fitted, a, b, rSquared, mean, ssRes, spread := TrendLine(xs, ys);
    slope, intercept := a, b;
    if !fitted {
      return TrendFit(Stable, false, 0.0), a, b, 0.0;
    }
    var sc := ScaleOf(ys, mean);
    scale := sc;
    if sc < MIN_SCALE {
      return TrendFit(Stable, true, rSquared), a, b, sc;
    }
    var range := xs[n - 1] - xs[0];
    if range == 0.0 {
      return TrendFit(Stable, false, rSquared), a, b, sc;
    }
    var steep := Steep(n, a, range, sc);
    var large := Tested(sqrt, n, a, spread, ssRes);
    TestIsRSquared(n, a, spread, ssRes, Scatter(n, Of(ys), mean), rSquared);
    if !steep || rSquared < MIN_TREND_R2 || !large {
      return TrendFit(Stable, false, rSquared), a, b, sc;
    }
    fit := TrendFit(if (a > 0.0) == upIsBad then Worsening else Improving, true, rSquared);
  }
}
