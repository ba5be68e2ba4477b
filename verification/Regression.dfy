/** The two least-squares fits of the report: ols of internal/report/forecast.go and the line
    fitDirection of internal/report/trend.go draws, over the reals. */
module Regression {
  import opened RealSums
  import opened Matrices
  import opened Grids

  /** A sequence as a vector. */
  ghost function Of(s: seq<real>): Vec {
    i => if 0 <= i < |s| then s[i] else 0.0
  }

  ghost function One(): Vec {
    i => 1.0
  }

  /** What the line slope*x + intercept leaves of y. */
  ghost function Residual(x: Vec, y: Vec, slope: real, intercept: real): Vec {
    i => y(i) - (slope * x(i) + intercept)
  }

  /** The sum of squared residuals of the line. */
  ghost function SquaredError(n: nat, x: Vec, y: Vec, slope: real, intercept: real): real {
    Dot(n, Residual(x, y, slope, intercept), Residual(x, y, slope, intercept))
  }

  /** The squared deviations of y from a value. */
  ghost function Scatter(n: nat, y: Vec, mean: real): real {
    SquaredError(n, One(), y, 0.0, mean)
  }

  /** The line's residuals are orthogonal to the constant and to x. */
  ghost predicate Normal(n: nat, x: Vec, y: Vec, slope: real, intercept: real) {
    var r := Residual(x, y, slope, intercept);
    Dot(n, r, One()) == 0.0 && Dot(n, r, x) == 0.0
  }

  ghost predicate AllEqual(n: nat, x: Vec) {
    forall i, j :: 0 <= i < n && 0 <= j < n ==> x(i) == x(j)
  }

  // ----- The normal equations make the line best

  lemma DotSelfNonNegative(n: nat, x: Vec)
    ensures Dot(n, x, x) >= 0.0
  {
    forall i | 0 <= i < n ensures Times(x, x)(i) >= 0.0 {
      SquareNonNegative(x(i));
    }
    SumNonNegative(n, Times(x, x));
  }

  lemma SquareNonNegative(a: real)
    ensures a * a >= 0.0
  {
  }

  lemma SquareZero(a: real, s: real)
    requires s == a * a
    ensures s == 0.0 ==> a == 0.0
  {
    if a > 0.0 {
      ZeroProduct(a, a);
    } else if a < 0.0 {
      ZeroProduct(-a, a);
      assert (-a) * a == -s;
    }
  }

  /** A vector with no length is zero. */
  lemma NoLength(n: nat, r: Vec)
    requires Dot(n, r, r) == 0.0
    ensures forall i :: 0 <= i < n ==> r(i) == 0.0
  {
    forall i | 0 <= i < n ensures Times(r, r)(i) >= 0.0 {
      SquareNonNegative(r(i));
    }
    SumZeroTerms(n, Times(r, r));
    forall i | 0 <= i < n ensures r(i) == 0.0 {
      SquareZero(r(i), Times(r, r)(i));
    }
  }

  /** Orthogonal parts add up. */
  lemma Pythagoras(n: nat, r: Vec, d: Vec, e: Vec)
    requires forall i :: 0 <= i < n ==> e(i) == r(i) + d(i)
    requires Dot(n, r, d) == 0.0
    ensures Dot(n, e, e) == Dot(n, r, r) + Dot(n, d, d)
  {
    hide Dot, Times;
    DotLinear(n, e, 1.0, r, 1.0, d, e);
    DotLinear(n, r, 1.0, r, 1.0, d, e);
    DotLinear(n, d, 1.0, r, 1.0, d, e);
    DotSymmetric(n, e, r);
    DotSymmetric(n, e, d);
    DotSymmetric(n, r, d);
  }

  /** A line that satisfies the normal equations has the least squared error of all lines. */
  lemma NormalIsLeast(n: nat, x: Vec, y: Vec, slope: real, intercept: real, a: real, b: real)
    requires Normal(n, x, y, slope, intercept)
    ensures SquaredError(n, x, y, slope, intercept) <= SquaredError(n, x, y, a, b)
  {
    var r, e := Residual(x, y, slope, intercept), Residual(x, y, a, b);
    var d: Vec := i => (slope - a) * x(i) + (intercept - b) * One()(i);
    DifferenceOfLines(x, y, slope, intercept, a, b);
    LineOrthogonal(n, r, x, slope - a, intercept - b, d);
    hide Residual, Dot;
    Pythagoras(n, r, d, e);
    DotSelfNonNegative(n, d);
  }

  /** What is orthogonal to x and to the constant is orthogonal to every line. */
  lemma LineOrthogonal(n: nat, r: Vec, x: Vec, da: real, db: real, d: Vec)
    requires forall i :: 0 <= i < n ==> d(i) == da * x(i) + db * One()(i)
    requires Dot(n, r, x) == 0.0 && Dot(n, r, One()) == 0.0
    ensures Dot(n, r, d) == 0.0
  {
    hide Dot, One;
    DotLinear(n, r, da, x, db, One(), d);
  }

  lemma DifferenceOfLines(x: Vec, y: Vec, slope: real, intercept: real, a: real, b: real)
    ensures forall i :: Residual(x, y, a, b)(i) ==
              Residual(x, y, slope, intercept)(i) + ((slope - a) * x(i) + (intercept - b) * One()(i))
  {
    forall i
      ensures Residual(x, y, a, b)(i) ==
              Residual(x, y, slope, intercept)(i) + ((slope - a) * x(i) + (intercept - b) * One()(i))
    {
      assert (slope - a) * x(i) == slope * x(i) - a * x(i);
    }
  }

  // ----- The sums the code keeps

  lemma DotOne(n: nat, x: Vec)
    ensures Dot(n, x, One()) == Sum(n, x)
  {
    SumExt(n, Times(x, One()), x);
  }

  /** What a residual is against any vector. */
  lemma ResidualDot(n: nat, z: Vec, x: Vec, y: Vec, slope: real, intercept: real)
    ensures Dot(n, Residual(x, y, slope, intercept), z) ==
            Dot(n, z, y) - (slope * Dot(n, z, x) + intercept * Dot(n, z, One()))
  {
    var r := Residual(x, y, slope, intercept);
    var line: Vec := i => slope * x(i) + intercept * One()(i);
    assert forall i :: r(i) == 1.0 * y(i) + -1.0 * line(i);
    hide Residual, Dot, One;
    DotSymmetric(n, r, z);
    DotLinear(n, z, 1.0, y, -1.0, line, r);
    DotLinear(n, z, slope, x, intercept, One(), line);
  }

  /** The sums of a residual against the constant and against x. */
  lemma ResidualSums(n: nat, x: Vec, y: Vec, slope: real, intercept: real)
    ensures var r := Residual(x, y, slope, intercept);
            && Dot(n, r, One()) == Sum(n, y) - (slope * Sum(n, x) + intercept * n as real)
            && Dot(n, r, x) == Dot(n, x, y) - (slope * Dot(n, x, x) + intercept * Sum(n, x))
  {
    ResidualDot(n, One(), x, y, slope, intercept);
    ResidualDot(n, x, x, y, slope, intercept);
    DotSymmetric(n, One(), x);
    DotSymmetric(n, One(), y);
    DotOne(n, x);
    DotOne(n, y);
    DotOne(n, One());
    SumConst(n, 1.0, One());
    hide Residual, Dot, One;
  }

  /** The coded denominator is the scatter of x about its mean. */
  lemma DenominatorIsScatter(n: nat, x: Vec, mean: real)
    requires n as real * mean == Sum(n, x)
    ensures Dot(n, x, x) - mean * Sum(n, x) == Scatter(n, x, mean)
  {
    var r := Residual(One(), x, 0.0, mean);
    var c: Vec := i => mean * One()(i);
    assert forall i :: r(i) == 1.0 * x(i) + -1.0 * c(i);
    DotLinear(n, r, 1.0, x, -1.0, c, r);
    DotLinear(n, r, mean, One(), 0.0, One(), c);
    ResidualSums(n, One(), x, 0.0, mean);
    DotSymmetric(n, r, x);
    DotLinear(n, x, 1.0, x, -1.0, c, r);
    DotLinear(n, x, mean, One(), 0.0, One(), c);
    DotOne(n, x);
  }

  lemma SumsSolve(n: real, sx: real, sy: real, sxx: real, sxy: real, mx: real, my: real, slope: real, intercept: real)
    requires n * mx == sx && n * my == sy
    requires slope * (sxx - mx * sx) == sxy - mx * sy && intercept == my - slope * mx
    ensures sy - (slope * sx + intercept * n) == 0.0
    ensures sxy - (slope * sxx + intercept * sx) == 0.0
  {
    assert slope * sx == slope * mx * n;
    assert intercept * n == my * n - slope * mx * n;
    assert mx * sy == mx * my * n && my * sx == my * mx * n;
    assert intercept * sx == my * sx - slope * (mx * sx);
    assert slope * (sxx - mx * sx) == slope * sxx - slope * (mx * sx);
  }

  /** The coded slope and intercept satisfy the normal equations. */
  lemma CodedLineIsNormal(n: nat, x: Vec, y: Vec, mx: real, my: real, slope: real, intercept: real)
    requires n as real * mx == Sum(n, x) && n as real * my == Sum(n, y)
    requires slope * (Dot(n, x, x) - mx * Sum(n, x)) == Dot(n, x, y) - mx * Sum(n, y)
    requires intercept == my - slope * mx
    ensures Normal(n, x, y, slope, intercept)
  {
    hide Dot, Residual;
    ResidualSums(n, x, y, slope, intercept);
    SumsSolve(n as real, Sum(n, x), Sum(n, y), Dot(n, x, x), Dot(n, x, y), mx, my, slope, intercept);
  }

  lemma {:induction false} EqualSum(n: nat, x: Vec, v: real)
    requires forall i :: 0 <= i < n ==> x(i) == v
    ensures Sum(n, x) == n as real * v
  {
    SumConst(n, v, x);
  }

  lemma Cancel(n: real, a: real, b: real)
    requires n > 0.0 && n * a == n * b
    ensures a == b
  {
  }

  /** The scatter about the mean vanishes only when all values are equal. */
  lemma ScatterZero(n: nat, x: Vec, mean: real)
    requires n > 0 && n as real * mean == Sum(n, x)
    ensures Scatter(n, x, mean) == 0.0 <==> AllEqual(n, x)
  {
    var r := Residual(One(), x, 0.0, mean);
    if Scatter(n, x, mean) == 0.0 {
      NoLength(n, r);
      forall i | 0 <= i < n ensures x(i) == mean {
        assert r(i) == 0.0;
      }
    }
    if AllEqual(n, x) {
      EqualSum(n, x, x(0));
      Cancel(n as real, mean, x(0));
      SumConst(n, 0.0, Times(r, r));
    }
  }

  // ----- ols

  lemma DotMore(n: nat, x: Vec, y: Vec)
    ensures Dot(n + 1, x, y) == Dot(n, x, y) + x(n) * y(n)
  {
  }

  method Sums(xs: seq<real>, ys: seq<real>) returns (sumX: real, sumY: real, sumXY: real, sumXX: real)
    requires |xs| == |ys|
    ensures sumX == Sum(|xs|, Of(xs)) && sumY == Sum(|xs|, Of(ys))
    ensures sumXY == Dot(|xs|, Of(xs), Of(ys)) && sumXX == Dot(|xs|, Of(xs), Of(xs))
  {
    sumX, sumY, sumXY, sumXX := 0.0, 0.0, 0.0, 0.0;
    for i := 0 to |xs|
      invariant sumX == Sum(i, Of(xs)) && sumY == Sum(i, Of(ys))
      invariant sumXY == Dot(i, Of(xs), Of(ys)) && sumXX == Dot(i, Of(xs), Of(xs))
    {
      DotMore(i, Of(xs), Of(ys));
      DotMore(i, Of(xs), Of(xs));
      sumX := sumX + xs[i];
      sumY := sumY + ys[i];
      sumXY := sumXY + xs[i] * ys[i];
      sumXX := sumXX + xs[i] * xs[i];
    }
  }

  method Errors(xs: seq<real>, ys: seq<real>, slope: real, intercept: real, meanY: real)
    returns (ssRes: real, ssTot: real)
    requires |xs| == |ys|
    ensures ssRes == SquaredError(|xs|, Of(xs), Of(ys), slope, intercept)
    ensures ssTot == Scatter(|xs|, Of(ys), meanY)
  {
    ssRes, ssTot := 0.0, 0.0;
    ghost var r, d := Residual(Of(xs), Of(ys), slope, intercept), Residual(One(), Of(ys), 0.0, meanY);
    for i := 0 to |xs|
      invariant ssRes == Dot(i, r, r) && ssTot == Dot(i, d, d)
    {
      DotMore(i, r, r);
      DotMore(i, d, d);
      var residual := ys[i] - (slope * xs[i] + intercept);
      ssRes := ssRes + residual * residual;
      ssTot := ssTot + (ys[i] - meanY) * (ys[i] - meanY);
    }
  }

  /** How much of y's scatter the line explains: 1 when all, 0 when none, 0 when y does not scatter. */
  ghost predicate Explains(rSquared: real, ssRes: real, ssTot: real) {
    && 0.0 <= rSquared <= 1.0
    && (if ssTot > 0.0 then rSquared * ssTot == ssTot - ssRes else rSquared == 0.0)
  }

  /** The standard error: the root of the mean squared residual with n - 2 degrees of freedom. */
  ghost predicate StandardError(n: nat, stdErr: real, ssRes: real) {
    if n > 2 then stdErr >= 0.0 && stdErr * stdErr * (n - 2) as real == ssRes else stdErr == 0.0
  }

  /** No other line has as small a squared error. */
  ghost predicate BestLine(n: nat, x: Vec, y: Vec, slope: real, intercept: real) {
    forall a, b :: SquaredError(n, x, y, slope, intercept) <= SquaredError(n, x, y, a, b)
  }

  lemma Ratio(ssRes: real, ssTot: real) returns (q: real)
    requires 0.0 <= ssRes <= ssTot && ssTot > 0.0
    ensures q == ssRes / ssTot && 0.0 <= q <= 1.0 && q * ssTot == ssRes
  {
    q := ssRes / ssTot;
    assert q * ssTot == ssRes;
  }

  lemma MeanScatter(n: nat, x: Vec, y: Vec, mean: real)
    ensures Scatter(n, y, mean) == SquaredError(n, x, y, 0.0, mean)
  {
    var d, e := Residual(One(), y, 0.0, mean), Residual(x, y, 0.0, mean);
    SumExt(n, Times(d, d), Times(e, e));
  }

  /** 1 - ssRes/ssTot, between 0 and 1 because the horizontal line through the mean is no better. */
  method RSquared(ssRes: real, ssTot: real) returns (rSquared: real)
    requires 0.0 <= ssRes <= ssTot
    ensures Explains(rSquared, ssRes, ssTot)
  {
    rSquared := 0.0;
    if ssTot > 0.0 {
      ghost var q := Ratio(ssRes, ssTot);
      rSquared := 1.0 - ssRes / ssTot;
      assert rSquared * ssTot == ssTot - q * ssTot;
    }
  }

  method StdErr(sqrt: real -> real, n: nat, ssRes: real) returns (stdErr: real)
    requires IsSqrt(sqrt) && ssRes >= 0.0
    ensures StandardError(n, stdErr, ssRes)
  {
    stdErr := 0.0;
    if n > 2 {
      var mean := ssRes / (n - 2) as real;
      assert mean * (n - 2) as real == ssRes;
      NonNegativeFactor(mean, (n - 2) as real);
      stdErr := sqrt(mean);
    }
  }

  lemma NonNegativeFactor(a: real, b: real)
    requires b > 0.0 && a * b >= 0.0
    ensures a >= 0.0
  {
  }

  method Quotient(a: real, b: real) returns (q: real)
    requires b != 0.0
    ensures q * b == a == b * q
  {
    q := a / b;
  }

  lemma ResidualNonNegative(n: nat, x: Vec, y: Vec, slope: real, intercept: real)
    ensures SquaredError(n, x, y, slope, intercept) >= 0.0
  {
    DotSelfNonNegative(n, Residual(x, y, slope, intercept));
  }

  /** The line is the best there is, with how much it explains and its standard error. */
  ghost predicate Fits(n: nat, x: Vec, y: Vec, slope: real, intercept: real, rSquared: real, stdErr: real) {
    var ssRes := SquaredError(n, x, y, slope, intercept);
    && Normal(n, x, y, slope, intercept)
    && BestLine(n, x, y, slope, intercept)
    && Explains(rSquared, ssRes, Scatter(n, y, MeanOf(n, y)))
    && StandardError(n, stdErr, ssRes)
  }

  ghost function MeanOf(n: nat, y: Vec): real {
    if n == 0 then 0.0 else Sum(n, y) / n as real
  }

  lemma MeanIs(n: nat, y: Vec, mean: real)
    requires n > 0 && n as real * mean == Sum(n, y)
    ensures mean == MeanOf(n, y)
  {
    var q := Sum(n, y) / n as real;
    assert n as real * q == Sum(n, y);
    Cancel(n as real, mean, q);
  }

  /** The line through points that do not share one x. */
  method FitLine(sqrt: real -> real, xs: seq<real>, ys: seq<real>, meanX: real, meanY: real, numerator: real,
                 denom: real) returns (slope: real, intercept: real, rSquared: real, stdErr: real)
    requires IsSqrt(sqrt) && |xs| == |ys| >= 2 && denom != 0.0
    requires |xs| as real * meanX == Sum(|xs|, Of(xs)) && |xs| as real * meanY == Sum(|xs|, Of(ys))
    requires numerator == Dot(|xs|, Of(xs), Of(ys)) - meanX * Sum(|xs|, Of(ys))
    requires denom == Dot(|xs|, Of(xs), Of(xs)) - meanX * Sum(|xs|, Of(xs))
    ensures Fits(|xs|, Of(xs), Of(ys), slope, intercept, rSquared, stdErr)
  {
    hide Dot, Residual, SquaredError, Scatter, Explains, StandardError, BestLine, Normal, AllEqual, Sum, MeanOf;
    ghost var n, x, y := |xs|, Of(xs), Of(ys);
    slope := Quotient(numerator, denom);
    intercept := meanY - slope * meanX;
    CodedLineIsNormal(n, x, y, meanX, meanY, slope, intercept);
    NormalIsBest(n, x, y, slope, intercept);
    var ssRes, ssTot := Errors(xs, ys, slope, intercept, meanY);
    MeanScatter(n, x, y, meanY);
    NormalIsLeast(n, x, y, slope, intercept, 0.0, meanY);
    ResidualNonNegative(n, x, y, slope, intercept);
    rSquared := RSquared(ssRes, ssTot);
    stdErr := StdErr(sqrt, |xs|, ssRes);
    MeanIs(n, y, meanY);
  }

  /** Ordinary least squares; zeros for fewer than two points, the mean for constant x. */
  method Ols(sqrt: real -> real, xs: seq<real>, ys: seq<real>)
    returns (slope: real, intercept: real, rSquared: real, stdErr: real)
    requires IsSqrt(sqrt) && |xs| == |ys|
    ensures |xs| < 2 ==> slope == intercept == rSquared == stdErr == 0.0
    ensures |xs| >= 2 && AllEqual(|xs|, Of(xs)) ==>
              slope == rSquared == stdErr == 0.0 && intercept == MeanOf(|ys|, Of(ys))
    ensures |xs| >= 2 && !AllEqual(|xs|, Of(xs)) ==>
              Fits(|xs|, Of(xs), Of(ys), slope, intercept, rSquared, stdErr)
  {
    hide Dot, Scatter, AllEqual, Sum, MeanOf, Fits;
    if |xs| < 2 {
      return 0.0, 0.0, 0.0, 0.0;
    }
    var n := |xs| as real;
    var sumX, sumY, sumXY, sumXX := Sums(xs, ys);
    var meanX := Quotient(sumX, n);
    var meanY := Quotient(sumY, n);
    var denom := sumXX - meanX * sumX;
    DenominatorIsScatter(|xs|, Of(xs), meanX);
    ScatterZero(|xs|, Of(xs), meanX);
    MeanIs(|ys|, Of(ys), meanY);
    if denom == 0.0 {
      return 0.0, meanY, 0.0, 0.0;
    }
    slope, intercept, rSquared, stdErr := FitLine(sqrt, xs, ys, meanX, meanY, sumXY - meanX * sumY, denom);
  }

  lemma NormalIsBest(n: nat, x: Vec, y: Vec, slope: real, intercept: real)
    requires Normal(n, x, y, slope, intercept)
    ensures BestLine(n, x, y, slope, intercept)
  {
    hide SquaredError, Normal;
    forall a, b ensures SquaredError(n, x, y, slope, intercept) <= SquaredError(n, x, y, a, b) {
      NormalIsLeast(n, x, y, slope, intercept, a, b);
    }
  }

  /** When the x differ, no other line is as good. */
  lemma BestLineIsUnique(n: nat, x: Vec, y: Vec, slope: real, intercept: real, a: real, b: real)
    requires Normal(n, x, y, slope, intercept) && !AllEqual(n, x)
    requires SquaredError(n, x, y, a, b) == SquaredError(n, x, y, slope, intercept)
    ensures a == slope && b == intercept
  {
    var r, e := Residual(x, y, slope, intercept), Residual(x, y, a, b);
    var d: Vec := i => (slope - a) * x(i) + (intercept - b) * One()(i);
    DifferenceOfLines(x, y, slope, intercept, a, b);
    Differs(n, x, r, d, e, slope - a, intercept - b);
  }

  lemma Differs(n: nat, x: Vec, r: Vec, d: Vec, e: Vec, da: real, db: real)
    requires forall i :: 0 <= i < n ==> e(i) == r(i) + d(i) && d(i) == da * x(i) + db * One()(i)
    requires Dot(n, r, x) == 0.0 && Dot(n, r, One()) == 0.0 && Dot(n, e, e) == Dot(n, r, r)
    requires !AllEqual(n, x)
    ensures da == 0.0 && db == 0.0
  {
    hide Dot, AllEqual;
    LineOrthogonal(n, r, x, da, db, d);
    Pythagoras(n, r, d, e);
    LineVanishes(n, x, d, da, db);
  }

  lemma LineVanishes(n: nat, x: Vec, d: Vec, da: real, db: real)
    requires !AllEqual(n, x) && Dot(n, d, d) == 0.0
    requires forall i :: 0 <= i < n ==> d(i) == da * x(i) + db
    ensures da == 0.0 && db == 0.0
  {
    NoLength(n, d);
    var i, j :| 0 <= i < n && 0 <= j < n && x(i) != x(j);
    assert d(i) == 0.0 && d(j) == 0.0;
    TwoPoints(da, db, x(i), x(j));
  }

  lemma TwoPoints(da: real, db: real, u: real, v: real)
    requires da * u + db == 0.0 && da * v + db == 0.0 && u != v
    ensures da == 0.0 && db == 0.0
  {
    assert da * (u - v) == 0.0;
  }

  // ----- fitDirection

  lemma ScaledSums(n: real, mx: real, sx: real, sy: real, sxx: real, sxy: real)
    requires n * mx == sx
    ensures n * sxy - sx * sy == n * (sxy - mx * sy)
    ensures n * sxx - sx * sx == n * (sxx - mx * sx)
  {
    assert sx * sy == n * (mx * sy);
    assert sx * sx == n * (mx * sx);
  }

  lemma ZeroProduct(n: real, d: real)
    requires n > 0.0
    ensures n * d == 0.0 <==> d == 0.0
  {
  }

  lemma SameSlope(n: real, slope: real, num: real, den: real)
    requires n > 0.0 && slope * (n * den) == n * num
    ensures slope * den == num
  {
    assert n * (slope * den) == n * num;
    Cancel(n, slope * den, num);
  }

  /** What a line explains of the scatter of y: the scatter of x, scaled by the slope twice. */
  lemma ExplainedBySlope(n: nat, x: Vec, y: Vec, slope: real, intercept: real, mx: real, my: real)
    requires n > 0 && Normal(n, x, y, slope, intercept)
    requires n as real * mx == Sum(n, x) && n as real * my == Sum(n, y)
    ensures Scatter(n, y, my) == SquaredError(n, x, y, slope, intercept) + slope * slope * Scatter(n, x, mx)
  {
    hide Residual, Dot, One, Sum;
    var r, e, dx := Residual(x, y, slope, intercept), Residual(x, y, 0.0, my), Residual(One(), x, 0.0, mx);
    var d: Vec := i => slope * x(i) + (intercept - my) * One()(i);
    MeanScatter(n, x, y, my);
    DifferenceOfLines(x, y, slope, intercept, 0.0, my);
    LineOrthogonal(n, r, x, slope, intercept - my, d);
    ThroughMeans(n, x, y, slope, intercept, mx, my);
    LineDeviates(x, slope, intercept - my, mx);
    Pythagoras(n, r, d, e);
    ScaledDot(n, slope, dx, d);
  }

  lemma LineDeviates(x: Vec, slope: real, c: real, mx: real)
    requires c == slope * -mx
    ensures forall i :: slope * x(i) + c * One()(i) == slope * Residual(One(), x, 0.0, mx)(i)
  {
    forall i ensures slope * x(i) + c * One()(i) == slope * Residual(One(), x, 0.0, mx)(i) {
      Distributes(slope, x(i), -mx);
    }
  }

  /** A normal line passes through the means. */
  lemma ThroughMeans(n: nat, x: Vec, y: Vec, slope: real, intercept: real, mx: real, my: real)
    requires n > 0 && Normal(n, x, y, slope, intercept)
    requires n as real * mx == Sum(n, x) && n as real * my == Sum(n, y)
    ensures intercept - my == slope * -mx
  {
    hide Dot, Sum, Residual;
    ResidualSums(n, x, y, slope, intercept);
    var k := n as real;
    assert k * my == slope * (k * mx) + intercept * k;
    assert slope * (k * mx) == k * (slope * mx);
    Distributes(k, slope * mx, intercept);
    Cancel(k, my, slope * mx + intercept);
  }

  lemma ScaledDot(n: nat, a: real, x: Vec, d: Vec)
    requires forall i :: 0 <= i < n ==> d(i) == a * x(i)
    ensures Dot(n, d, d) == a * a * Dot(n, x, x)
  {
    hide Sum;
    forall i | 0 <= i < n ensures Times(d, d)(i) == a * a * Times(x, x)(i) {
      SquareOfProduct(a, x(i));
    }
    SumScale(n, a * a, Times(x, x), Times(d, d));
  }

  lemma SquareOfProduct(a: real, b: real)
    ensures (a * b) * (a * b) == a * a * (b * b)
  {
  }

  /** The line a trend is judged by, over elapsed time and value, and the sums its test needs; none when all points
      share one time. */
  method TrendLine(xs: seq<real>, ys: seq<real>)
    returns (fitted: bool, slope: real, intercept: real, rSquared: real, mean: real, ssRes: real, spread: real)
    requires |xs| == |ys| >= 1
    ensures fitted <==> !AllEqual(|xs|, Of(xs))
    ensures fitted ==> mean == MeanOf(|ys|, Of(ys))
    ensures fitted ==> ssRes == SquaredError(|xs|, Of(xs), Of(ys), slope, intercept) >= 0.0
    ensures fitted ==> spread > 0.0 && Scatter(|ys|, Of(ys), mean) == ssRes + slope * slope * spread
    ensures fitted ==> Normal(|xs|, Of(xs), Of(ys), slope, intercept)
    ensures fitted ==> Explains(rSquared, SquaredError(|xs|, Of(xs), Of(ys), slope, intercept),
                                Scatter(|xs|, Of(ys), MeanOf(|ys|, Of(ys))))
  {
    hide Dot, Scatter, AllEqual, Sum, MeanOf, Normal, SquaredError, Explains;
    slope, intercept, rSquared, mean, ssRes, spread := 0.0, 0.0, 0.0, 0.0, 0.0, 0.0;
    var n := |xs| as real;
    var sumX, sumY, sumXY, sumXX := Sums(xs, ys);
    ghost var meanX := Quotient(sumX, n);
    var denom := n * sumXX - sumX * sumX;
    ScaledSums(n, meanX, sumX, sumY, sumXX, sumXY);
    DenominatorIsScatter(|xs|, Of(xs), meanX);
    ScatterZero(|xs|, Of(xs), meanX);
    ZeroProduct(n, sumXX - meanX * sumX);
    fitted := denom != 0.0;
    if fitted {
      slope := Quotient(n * sumXY - sumX * sumY, denom);
      SameSlope(n, slope, sumXY - meanX * sumY, sumXX - meanX * sumX);
      intercept, rSquared, mean, ssRes, spread := TrendThrough(xs, ys, sumX, sumY, sumXX, slope, meanX);
    }
  }

  /** The rest of the line of this slope, and what it leaves. */
  method TrendThrough(xs: seq<real>, ys: seq<real>, sumX: real, sumY: real, sumXX: real, slope: real, ghost meanX: real)
    returns (intercept: real, rSquared: real, mean: real, ssRes: real, spread: real)
    requires |xs| == |ys| >= 1 && sumX == Sum(|xs|, Of(xs)) && sumY == Sum(|xs|, Of(ys))
    requires sumXX == Dot(|xs|, Of(xs), Of(xs)) && |xs| as real * meanX == sumX
    requires sumXX - meanX * sumX == Scatter(|xs|, Of(xs), meanX) != 0.0
    requires slope * (sumXX - meanX * sumX) == Dot(|xs|, Of(xs), Of(ys)) - meanX * sumY
    ensures Normal(|xs|, Of(xs), Of(ys), slope, intercept) && mean == MeanOf(|ys|, Of(ys))
    ensures ssRes == SquaredError(|xs|, Of(xs), Of(ys), slope, intercept) >= 0.0
    ensures Explains(rSquared, ssRes, Scatter(|xs|, Of(ys), mean))
    ensures spread > 0.0 && Scatter(|ys|, Of(ys), mean) == ssRes + slope * slope * spread
  {
    hide Dot, Scatter, Sum, MeanOf, Normal, SquaredError, Explains;
    var n := |xs| as real;
    ghost var x, y := Of(xs), Of(ys);
    intercept := Quotient(sumY - slope * sumX, n);
    mean := Quotient(sumY, n);
    SameIntercept(n, mean, meanX, sumX, sumY, slope, intercept);
    CodedLineIsNormal(|xs|, x, y, meanX, mean, slope, intercept);
    rSquared, ssRes := TrendExplained(xs, ys, slope, intercept, mean);
    MeanIs(|ys|, y, mean);
    var share := Quotient(sumX * sumX, n);
    spread := sumXX - share;
    SameShare(n, meanX, sumX, share);
    ResidualNonNegative(|xs|, x, y, slope, intercept);
    ScatterPositive(|xs|, x, meanX);
    ExplainedBySlope(|xs|, x, y, slope, intercept, meanX, mean);
  }

  lemma SameShare(n: real, mx: real, sx: real, share: real)
    requires n > 0.0 && n * mx == sx && share * n == sx * sx
    ensures share == mx * sx
  {
    assert n * (mx * sx) == sx * sx;
    Cancel(n, share, mx * sx);
  }

  lemma ScatterPositive(n: nat, x: Vec, mean: real)
    requires Scatter(n, x, mean) != 0.0
    ensures Scatter(n, x, mean) > 0.0
  {
    ResidualNonNegative(n, One(), x, 0.0, mean);
  }

  lemma SameIntercept(n: real, my: real, mx: real, sx: real, sy: real, slope: real, intercept: real)
    requires n > 0.0 && n * mx == sx && n * my == sy && intercept * n == sy - slope * sx
    ensures intercept == my - slope * mx
  {
    assert n * (my - slope * mx) == sy - slope * sx;
    Cancel(n, intercept, my - slope * mx);
  }

  method TrendExplained(xs: seq<real>, ys: seq<real>, slope: real, intercept: real, mean: real)
    returns (rSquared: real, ssRes: real)
    requires |xs| == |ys| && Normal(|xs|, Of(xs), Of(ys), slope, intercept)
    ensures ssRes == SquaredError(|xs|, Of(xs), Of(ys), slope, intercept)
    ensures Explains(rSquared, SquaredError(|xs|, Of(xs), Of(ys), slope, intercept), Scatter(|xs|, Of(ys), mean))
  {
    hide Dot, Scatter, Normal, SquaredError, Explains;
    ghost var x, y := Of(xs), Of(ys);
    var ssTot;
    ssRes, ssTot := Errors(xs, ys, slope, intercept, mean);
    MeanScatter(|xs|, x, y, mean);
    NormalIsLeast(|xs|, x, y, slope, intercept, 0.0, mean);
    ResidualNonNegative(|xs|, x, y, slope, intercept);
    rSquared := RSquared(ssRes, ssTot);
  }

  /** The two formulas draw one line. */
  lemma BothFitsAgree(n: nat, x: Vec, y: Vec, slope: real, intercept: real, slope': real, intercept': real)
    requires !AllEqual(n, x)
    requires Normal(n, x, y, slope, intercept) && Normal(n, x, y, slope', intercept')
    ensures slope == slope' && intercept == intercept'
  {
    NormalIsLeast(n, x, y, slope, intercept, slope', intercept');
    NormalIsLeast(n, x, y, slope', intercept', slope, intercept);
    BestLineIsUnique(n, x, y, slope, intercept, slope', intercept');
  }
}
