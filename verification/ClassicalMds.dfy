/** Feature distances and the double centring of internal/cohort: for Euclidean
    distances the centred matrix is the Gram matrix of the mean-centred features. */
module ClassicalMds {
  import opened RealSums
  import opened Matrices
  import opened Grids
  import opened Arith
  import Jacobi

  /** One cluster's name, features and user-supplied tag ("" when unset). */
  datatype ClusterProfile = ClusterProfile(name: string, features: seq<real>, tag: string)

  // ----- Feature distances

  /** Component k of a feature vector, zero past its end. */
  function Pad(v: seq<real>, k: int): real {
    if 0 <= k < |v| then v[k] else 0.0
  }

  ghost function DiffSquares(a: seq<real>, b: seq<real>): Vec {
    k => (Pad(a, k) - Pad(b, k)) * (Pad(a, k) - Pad(b, k))
  }

  /** The squared Euclidean distance of two zero-padded vectors. */
  ghost function SquaredDistance(a: seq<real>, b: seq<real>): (d: real)
    ensures d >= 0.0
  {
    SumNonNegative(Max(|b|, |a|), DiffSquares(a, b));
    Sum(Max(|b|, |a|), DiffSquares(a, b))
  }

  ghost function Distance(sqrt: real -> real, a: seq<real>, b: seq<real>): real {
    sqrt(SquaredDistance(a, b))
  }

  lemma DistanceSymmetric(sqrt: real -> real, a: seq<real>, b: seq<real>)
    ensures Distance(sqrt, a, b) == Distance(sqrt, b, a)
  {
    SumExt(Max(|b|, |a|), DiffSquares(a, b), DiffSquares(b, a));
  }

  /** Padding to any common dimension does not change the squared distance. */
  lemma {:induction false} PaddedDistance(a: seq<real>, b: seq<real>, dim: nat)
    requires |a| <= dim && |b| <= dim
    ensures SquaredDistance(a, b) == Sum(dim, DiffSquares(a, b))
  {
    if dim > Max(|b|, |a|) { PaddedDistance(a, b, dim - 1); }
  }

  method Euclidean(sqrt: real -> real, a: seq<real>, b: seq<real>) returns (d: real)
    ensures d == Distance(sqrt, a, b)
  {
    var n := if |b| > |a| then |b| else |a|;
    var sum := 0.0;
    for i := 0 to n
      invariant sum == Sum(i, DiffSquares(a, b))
    {
      var av, bv := 0.0, 0.0;
      if i < |a| { av := a[i]; }
      if i < |b| { bv := b[i]; }
      var diff := av - bv;
      sum := sum + diff * diff;
    }
    d := sqrt(sum);
  }

  /** The distance of two different profiles, zero on the diagonal. */
  ghost function ProfileDistances(sqrt: real -> real, profiles: seq<ClusterProfile>): Mat {
    (i, j) =>
      if 0 <= i < |profiles| && 0 <= j < |profiles| && i != j
      then Distance(sqrt, profiles[i].features, profiles[j].features) else 0.0
  }

  lemma ProfileDistancesSymmetric(sqrt: real -> real, profiles: seq<ClusterProfile>)
    ensures Symmetric(|profiles|, ProfileDistances(sqrt, profiles))
  {
    forall i, j | 0 <= i < |profiles| && 0 <= j < |profiles|
      ensures ProfileDistances(sqrt, profiles)(i, j) == ProfileDistances(sqrt, profiles)(j, i)
    {
      DistanceSymmetric(sqrt, profiles[i].features, profiles[j].features);
    }
  }

  /** The n-by-n distance matrix, filled from its upper triangle. */
  method PairwiseDistances(sqrt: real -> real, profiles: seq<ClusterProfile>) returns (d: array2<real>)
    ensures fresh(d) && Square(d, |profiles|)
    ensures Agree(|profiles|, Entries(d), ProfileDistances(sqrt, profiles))
  {
    var n := |profiles|;
    ghost var want := ProfileDistances(sqrt, profiles);
    ProfileDistancesSymmetric(sqrt, profiles);
    d := new real[n, n]((i, j) => 0.0);
    for i := 0 to n
      invariant forall k, l :: 0 <= k < n && 0 <= l < n ==>
                  d[k, l] == if k < i || l < i then want(k, l) else 0.0
    {
      for j := i + 1 to n
        invariant forall k, l :: 0 <= k < n && 0 <= l < n ==>
                    d[k, l] == if k < i || l < i || (k == i && l < j) || (l == i && k < j)
                               then want(k, l) else 0.0
      {
        var v := Euclidean(sqrt, profiles[i].features, profiles[j].features);
        d[i, j] := v;
        d[j, i] := v;
      }
    }
  }

  // ----- Double centring

  /** rm holds the mean of every row of e, gm the mean of all its entries. */
  ghost predicate Means(n: nat, e: Mat, rm: Vec, gm: real) {
    && (forall i :: 0 <= i < n ==> n as real * rm(i) == Sum(n, Row(e, i)))
    && n as real * gm == Sum(n, rm)
  }

  /** -1/2 J e J, given the means of e. */
  ghost function Centered(e: Mat, rm: Vec, gm: real): Mat {
    (i, j) => -0.5 * (e(i, j) - rm(i) - rm(j) + gm)
  }

  /** Every row of the centred matrix sums to zero. */
  lemma CenteredRowsSumToZero(n: nat, e: Mat, rm: Vec, gm: real, i: nat)
    requires i < n && Means(n, e, rm, gm)
    ensures Sum(n, Row(Centered(e, rm, gm), i)) == 0.0
  {
    var rest := -0.5 * (gm - rm(i));
    var f: Vec := j => -0.5 * e(i, j) + 0.5 * rm(j);
    SumLinear(n, -0.5, Row(e, i), 0.5, rm, f);
    SumLinear(n, 1.0, f, 1.0, _ => rest, Row(Centered(e, rm, gm), i));
    SumConst(n, rest, _ => rest);
  }

  lemma SameProduct(n: real, x: real, y: real)
    requires n > 0.0 && n * x == n * y
    ensures x == y
  {
  }

  // ----- Features

  /** The products of deviations of points i and j, feature by feature. */
  ghost function Deviations(x: Mat, mu: Vec, i: int, j: int): Vec {
    f => (x(i, f) - mu(f)) * (x(j, f) - mu(f))
  }

  /** The Gram matrix of the mean-centred feature vectors. */
  ghost function Gram(d: nat, x: Mat, mu: Vec): Mat {
    (i, j) => Sum(d, Deviations(x, mu, i, j))
  }

  /** The squared differences of points i and j, feature by feature. */
  ghost function Differences(x: Mat, i: int, j: int): Vec {
    f => (x(i, f) - x(j, f)) * (x(i, f) - x(j, f))
  }

  /** The squared distances of the points whose features are the rows of x. */
  ghost function SquaredDistances(d: nat, x: Mat): Mat {
    (i, j) => Sum(d, Differences(x, i, j))
  }

  /** mu holds the mean of every feature. */
  ghost predicate FeatureMeans(n: nat, d: nat, x: Mat, mu: Vec) {
    forall f :: 0 <= f < d ==> n as real * mu(f) == Sum(n, Col(x, f))
  }

  lemma MeansExt(n: nat, e: Mat, e': Mat, rm: Vec, gm: real)
    requires Means(n, e, rm, gm) && Agree(n, e, e')
    ensures Means(n, e', rm, gm)
  {
    forall i | 0 <= i < n
      ensures Sum(n, Row(e, i)) == Sum(n, Row(e', i))
    {
      SumExt(n, Row(e, i), Row(e', i));
    }
  }

  lemma MeanOf(n: nat, sum: real) returns (mean: real)
    requires n > 0
    ensures n as real * mean == sum
  {
    mean := sum / (n as real);
  }

  /** e measures the differences of a form g whose rows sum to zero, a being g's diagonal. */
  ghost predicate Differs(n: nat, e: Mat, g: Mat, a: Vec) {
    && (forall i, j :: 0 <= i < n && 0 <= j < n ==> e(i, j) == a(i) + a(j) - 2.0 * g(i, j))
    && (forall i :: 0 <= i < n ==> Sum(n, Row(g, i)) == 0.0)
  }

  lemma {:induction false} DifferencesSum(k: nat, row: Vec, g: Vec, a: Vec, ai: real)
    requires forall j :: 0 <= j < k ==> row(j) == ai + a(j) - 2.0 * g(j)
    ensures Sum(k, row) == k as real * ai + Sum(k, a) - 2.0 * Sum(k, g)
  {
    if k > 0 {
      DifferencesSum(k - 1, row, g, a, ai);
      OneMoreTimes(k, ai);
    }
  }

  lemma OneMoreTimes(k: nat, x: real)
    requires k > 0
    ensures k as real * x == (k - 1) as real * x + x
  {
    assert k as real == (k - 1) as real + 1.0;
  }

  lemma RowOfDifferences(n: nat, e: Mat, g: Mat, a: Vec, i: nat)
    requires i < n && Differs(n, e, g, a)
    ensures Sum(n, Row(e, i)) == n as real * a(i) + Sum(n, a)
  {
    DifferencesSum(n, Row(e, i), Row(g, i), a, a(i));
  }

  /** Centring recovers the form. */
  lemma CenteringRecovers(n: nat, e: Mat, g: Mat, a: Vec, rm: Vec, gm: real)
    requires n > 0 && Differs(n, e, g, a) && Means(n, e, rm, gm)
    ensures Agree(n, Centered(e, rm, gm), g)
  {
    var m := MeanOf(n, Sum(n, a));
    forall i | 0 <= i < n
      ensures rm(i) == a(i) + m
    {
      RowOfDifferences(n, e, g, a, i);
      MeanIs(n, rm(i), a(i), m, Sum(n, a));
    }
    SumShifted(n, a, m, rm);
    MeanIs(n, gm, m, m, Sum(n, a));
    hide Sum;
  }

  lemma MeanIs(n: nat, r: real, x: real, m: real, sum: real)
    requires n > 0 && n as real * r == n as real * x + sum && n as real * m == sum
    ensures r == x + m
  {
    Distributes(n as real, x, m);
    SameProduct(n as real, r, x + m);
  }

  lemma {:induction false} SumShifted(n: nat, a: Vec, m: real, b: Vec)
    requires forall i :: 0 <= i < n ==> b(i) == a(i) + m
    ensures Sum(n, b) == n as real * m + Sum(n, a)
  {
    if n > 0 {
      SumShifted(n - 1, a, m, b);
      OneMore(n, m);
    }
  }

  /** The deviations of point i times those of point j, point by point and feature by feature. */
  ghost function DeviationTable(x: Mat, mu: Vec, i: int): Mat {
    (j, f) => (x(i, f) - mu(f)) * (x(j, f) - mu(f))
  }

  /** A feature's deviations from its mean sum to zero. */
  lemma DeviationsCancel(n: nat, x: Vec, mu: real, c: real, f: Vec)
    requires n as real * mu == Sum(n, x)
    requires forall j :: 0 <= j < n ==> f(j) == c * (x(j) - mu)
    ensures Sum(n, f) == 0.0
  {
    var dev: Vec := j => x(j) - mu;
    SumConst(n, mu, _ => mu);
    SumLinear(n, 1.0, x, -1.0, _ => mu, dev);
    SumScale(n, c, dev, f);
  }

  lemma DeviationColumn(n: nat, d: nat, x: Mat, mu: Vec, i: nat, f: nat)
    requires f < d && FeatureMeans(n, d, x, mu)
    ensures ColSums(n, DeviationTable(x, mu, i))(f) == 0.0
  {
    DeviationsCancel(n, Col(x, f), mu(f), x(i, f) - mu(f), Col(DeviationTable(x, mu, i), f));
  }

  /** Every row of the Gram matrix of centred vectors sums to zero. */
  lemma GramRowsSumToZero(n: nat, d: nat, x: Mat, mu: Vec, i: nat)
    requires i < n && FeatureMeans(n, d, x, mu)
    ensures Sum(n, Row(Gram(d, x, mu), i)) == 0.0
  {
    hide FeatureMeans;
    var t := DeviationTable(x, mu, i);
    forall j | 0 <= j < n
      ensures Row(Gram(d, x, mu), i)(j) == RowSums(d, t)(j)
    {
      SumExt(d, Deviations(x, mu, i, j), Row(t, j));
    }
    SumExt(n, Row(Gram(d, x, mu), i), RowSums(d, t));
    SumExchange(n, d, t);
    forall f | 0 <= f < d
      ensures ColSums(n, t)(f) == 0.0
    {
      DeviationColumn(n, d, x, mu, i, f);
    }
    SumConst(d, 0.0, ColSums(n, t));
  }

  lemma DifferenceOfDeviations(x: real, y: real, mu: real)
    ensures (x - y) * (x - y) == (x - mu) * (x - mu) + (y - mu) * (y - mu) - 2.0 * ((x - mu) * (y - mu))
  {
  }

  /** The squared distance of two points is a difference of the Gram form. */
  lemma DistanceFromGram(d: nat, x: Mat, mu: Vec, i: int, j: int)
    ensures var g := Gram(d, x, mu);
            SquaredDistances(d, x)(i, j) == g(i, i) + g(j, j) - 2.0 * g(i, j)
  {
    var p, q, r := Deviations(x, mu, i, i), Deviations(x, mu, j, j), Deviations(x, mu, i, j);
    var pq: Vec := f => p(f) + q(f);
    SumLinear(d, 1.0, p, 1.0, q, pq);
    forall f | 0 <= f < d
      ensures Differences(x, i, j)(f) == 1.0 * pq(f) + (-2.0) * r(f)
    {
      DifferenceOfDeviations(x(i, f), x(j, f), mu(f));
    }
    SumLinear(d, 1.0, pq, -2.0, r, Differences(x, i, j));
  }

  /** For Euclidean distances of feature vectors, in any number and any dimension, centring gives
      the Gram matrix of the mean-centred vectors. */
  lemma CenteringGivesGram(n: nat, d: nat, x: Mat, mu: Vec, rm: Vec, gm: real)
    requires n > 0 && FeatureMeans(n, d, x, mu)
    requires Means(n, SquaredDistances(d, x), rm, gm)
    ensures Agree(n, Centered(SquaredDistances(d, x), rm, gm), Gram(d, x, mu))
  {
    var e, g := SquaredDistances(d, x), Gram(d, x, mu);
    var a := Diagonal(g);
    forall i, j | 0 <= i < n && 0 <= j < n
      ensures e(i, j) == a(i) + a(j) - 2.0 * g(i, j)
    {
      DistanceFromGram(d, x, mu, i, j);
    }
    forall i | 0 <= i < n
      ensures Sum(n, Row(g, i)) == 0.0
    {
      GramRowsSumToZero(n, d, x, mu, i);
    }
    CenteringRecovers(n, e, g, a, rm, gm);
  }

  // ----- The profiles' own distances

  /** Row i is profile i's feature vector, zero-padded. */
  ghost function Features(profiles: seq<ClusterProfile>): Mat {
    (i, f) => if 0 <= i < |profiles| then Pad(profiles[i].features, f) else 0.0
  }

  ghost function EntrySquares(e: Mat): Mat {
    (i, j) => e(i, j) * e(i, j)
  }

  /** Squared profile distances are the squared distances of the padded feature rows. */
  lemma ProfileSquares(sqrt: real -> real, profiles: seq<ClusterProfile>, dim: nat)
    requires IsSqrt(sqrt)
    requires forall i :: 0 <= i < |profiles| ==> |profiles[i].features| <= dim
    ensures Agree(|profiles|, EntrySquares(ProfileDistances(sqrt, profiles)),
                  SquaredDistances(dim, Features(profiles)))
  {
    forall i, j | 0 <= i < |profiles| && 0 <= j < |profiles|
      ensures EntrySquares(ProfileDistances(sqrt, profiles))(i, j) == SquaredDistances(dim, Features(profiles))(i, j)
    {
      PairSquares(sqrt, profiles, dim, i, j);
    }
  }

  lemma PairSquares(sqrt: real -> real, profiles: seq<ClusterProfile>, dim: nat, i: nat, j: nat)
    requires IsSqrt(sqrt) && i < |profiles| && j < |profiles|
    requires |profiles[i].features| <= dim && |profiles[j].features| <= dim
    ensures EntrySquares(ProfileDistances(sqrt, profiles))(i, j) == SquaredDistances(dim, Features(profiles))(i, j)
  {
    var x := Features(profiles);
    var a, b := profiles[i].features, profiles[j].features;
    if i == j {
      SumConst(dim, 0.0, Differences(x, i, i));
    } else {
      PaddedDistance(a, b, dim);
      SumExt(dim, DiffSquares(a, b), Differences(x, i, j));
      DistanceSquared(sqrt, a, b);
    }
  }

  lemma DistanceSquared(sqrt: real -> real, a: seq<real>, b: seq<real>)
    requires IsSqrt(sqrt)
    ensures Distance(sqrt, a, b) * Distance(sqrt, a, b) == SquaredDistance(a, b)
  {
  }

  /** Centring the squared distances of the profiles gives the Gram matrix of their centred,
      zero-padded features. */
  lemma ProfilesGiveGram(sqrt: real -> real, profiles: seq<ClusterProfile>, dim: nat, mu: Vec,
                         e: Mat, rm: Vec, gm: real)
    requires IsSqrt(sqrt) && profiles != []
    requires forall i :: 0 <= i < |profiles| ==> |profiles[i].features| <= dim
    requires FeatureMeans(|profiles|, dim, Features(profiles), mu)
    requires Agree(|profiles|, e, EntrySquares(ProfileDistances(sqrt, profiles)))
    requires Means(|profiles|, e, rm, gm)
    ensures Agree(|profiles|, Centered(e, rm, gm), Gram(dim, Features(profiles), mu))
  {
    var d := SquaredDistances(dim, Features(profiles));
    ProfileSquares(sqrt, profiles, dim);
    MeansExt(|profiles|, e, d, rm, gm);
    CenteringGivesGram(|profiles|, dim, Features(profiles), mu, rm, gm);
  }

  // ----- The method

  /** Fills row i of sq with squared distances and returns their sum. */
  method SquareRow(dist: array2<real>, sq: array2<real>, n: nat, i: nat) returns (total: real)
    requires dist != sq && Square(dist, n) && Square(sq, n) && i < n
    modifies sq
    ensures total == Sum(n, Row(EntrySquares(Entries(dist)), i))
    ensures forall j :: 0 <= j < n ==> sq[i, j] == EntrySquares(Entries(dist))(i, j)
    ensures forall k, j :: 0 <= k < n && 0 <= j < n && k != i ==> sq[k, j] == old(sq[k, j])
  {
    ghost var e := EntrySquares(Entries(dist));
    total := 0.0;
    for j := 0 to n
      invariant total == Sum(j, Row(e, i))
      invariant forall l :: 0 <= l < j ==> sq[i, l] == e(i, l)
      invariant forall k, l :: 0 <= k < n && 0 <= l < n && k != i ==> sq[k, l] == old(sq[k, l])
    {
      var v := dist[i, j] * dist[i, j];
      assert v == e(i, j);
      sq[i, j] := v;
      total := total + v;
    }
  }

  lemma DivideBack(n: nat, x: real)
    requires n > 0
    ensures n as real * (x / (n as real)) == x
  {
  }

  /** The squared distances, the mean of each row, and their total. */
  method SquaresAndRowMeans(dist: array2<real>, n: nat)
    returns (sq: array2<real>, rowMean: array<real>, sum: real)
    requires Square(dist, n) && n > 0
    ensures fresh(sq) && fresh(rowMean) && Square(sq, n) && rowMean.Length == n
    ensures Agree(n, Entries(sq), EntrySquares(Entries(dist)))
    ensures sum == Sum(n, RowSums(n, EntrySquares(Entries(dist))))
    ensures forall i :: 0 <= i < n ==>
              rowMean[i] == Sum(n, Row(EntrySquares(Entries(dist)), i)) / (n as real)
  {
    hide EntrySquares, Sum;
    ghost var e := EntrySquares(Entries(dist));
    ghost var mean: Vec := i => Sum(n, Row(e, i)) / (n as real);
    NoTerms(RowSums(n, e));
    sq := new real[n, n];
    rowMean := new real[n];
    sum := 0.0;
    for i := 0 to n
      invariant sum == Sum(i, RowSums(n, e))
      invariant forall k, j :: 0 <= k < i && 0 <= j < n ==> sq[k, j] == e(k, j)
      invariant forall k :: 0 <= k < i ==> rowMean[k] == mean(k)
    {
      var total := SquareRow(dist, sq, n, i);
      OneTermMore(i, RowSums(n, e));
      sum := sum + total;
      rowMean[i] := total / (n as real);
    }
  }

  /** The squared distances, the mean of each row, and the mean of all of them. */
  method SquaresAndMeans(dist: array2<real>, n: nat)
    returns (sq: array2<real>, rowMean: array<real>, grand: real)
    requires Square(dist, n) && n > 0
    ensures fresh(sq) && fresh(rowMean) && Square(sq, n) && rowMean.Length == n
    ensures Agree(n, Entries(sq), EntrySquares(Entries(dist)))
    ensures Means(n, EntrySquares(Entries(dist)), Listed(rowMean[..]), grand)
  {
    var sum;
    sq, rowMean, sum := SquaresAndRowMeans(dist, n);
    grand := sum / ((n * n) as real);
    MeansReached(n, EntrySquares(Entries(dist)), Listed(rowMean[..]), sum, grand);
  }

  ghost function Listed(s: seq<real>): Vec {
    i => if 0 <= i < |s| then s[i] else 0.0
  }

  lemma ListedAt(s: seq<real>)
    ensures forall i :: 0 <= i < |s| ==> Listed(s)(i) == s[i]
  {
  }

  lemma MeansReached(n: nat, e: Mat, rm: Vec, sum: real, grand: real)
    requires n > 0 && sum == Sum(n, RowSums(n, e)) && grand == sum / ((n * n) as real)
    requires forall i :: 0 <= i < n ==> rm(i) == Sum(n, Row(e, i)) / (n as real)
    ensures Means(n, e, rm, grand)
  {
    forall i | 0 <= i < n
      ensures n as real * rm(i) == RowSums(n, e)(i)
    {
      DivideBack(n, Sum(n, Row(e, i)));
    }
    SumScale(n, n as real, rm, RowSums(n, e));
    GrandOfRowMeans(n, Sum(n, rm), sum, grand);
  }

  lemma GrandOfRowMeans(n: nat, means: real, sum: real, grand: real)
    requires n > 0 && sum == n as real * means && grand == sum / ((n * n) as real)
    ensures n as real * grand == means
  {
    var m := n as real;
    assert (n * n) as real == m * m;
    assert m * m > 0.0;
    assert (m * m) * grand == sum;
    SameProduct(m, m * grand, means);
  }

  method CenterPoints(dist: array2<real>, n: nat) returns (b: array2<real>, ghost rm: Vec, ghost gm: real)
    requires Square(dist, n) && n > 0
    ensures fresh(b) && Square(b, n)
    ensures Means(n, EntrySquares(Entries(dist)), rm, gm)
    ensures Agree(n, Entries(b), Centered(EntrySquares(Entries(dist)), rm, gm))
  {
    hide Means, EntrySquares, Entries, Listed;
    var sq, rowMean, grand := SquaresAndMeans(dist, n);
    ListedAt(rowMean[..]);
    rm, gm := Listed(rowMean[..]), grand;
    b := new real[n, n]((i, j) requires 0 <= i < n && 0 <= j < n reads sq, rowMean =>
      -0.5 * (sq[i, j] - rowMean[i] - rowMean[j] + grand));
  }

  /** -1/2 J D² J for the distance matrix dist; rm and gm are the means it used. Without points the mean of
      all entries is no number, but no entry reads it. */
  method DoubleCenter(dist: array2<real>, n: nat) returns (b: array2<real>, ghost rm: Vec, ghost gm: real)
    requires Square(dist, n)
    ensures fresh(b) && Square(b, n)
    ensures Means(n, EntrySquares(Entries(dist)), rm, gm)
    ensures Agree(n, Entries(b), Centered(EntrySquares(Entries(dist)), rm, gm))
  {
    hide EntrySquares, Centered, Entries;
    if n > 0 {
      b, rm, gm := CenterPoints(dist, n);
    } else {
      b, rm, gm := new real[0, 0], i => 0.0, 0.0;
    }
  }

  /** Whatever the distances, the centred matrix has zero row sums, and it is symmetric when they are. */
  lemma CenteredShape(n: nat, dist: Mat, rm: Vec, gm: real, b: Mat)
    requires Means(n, EntrySquares(dist), rm, gm)
    requires Agree(n, b, Centered(EntrySquares(dist), rm, gm))
    ensures forall i :: 0 <= i < n ==> Sum(n, Row(b, i)) == 0.0
    ensures Symmetric(n, dist) ==> Symmetric(n, b)
  {
    forall i | 0 <= i < n
      ensures Sum(n, Row(b, i)) == 0.0
    {
      SumExt(n, Row(b, i), Row(Centered(EntrySquares(dist), rm, gm), i));
      CenteredRowsSumToZero(n, EntrySquares(dist), rm, gm, i);
    }
  }

  // ----- What the eigensolver then finds

  /** The deviation of feature f, across the points. */
  ghost function Deviation(x: Mat, mu: Vec, f: int): Vec {
    i => x(i, f) - mu(f)
  }

  /** A Gram matrix is positive semidefinite. */
  lemma {:induction false} GramNonNegative(n: nat, d: nat, x: Mat, mu: Vec, y: Vec)
    ensures Form(n, Gram(d, x, mu), y, y) >= 0.0
  {
    var g := Gram(d, x, mu);
    if d == 0 {
      forall i | 0 <= i < n
        ensures Times(y, Apply(n, g, y))(i) == 0.0
      {
        SumConst(n, 0.0, Times(Row(g, i), y));
      }
      SumConst(n, 0.0, Times(y, Apply(n, g, y)));
    } else {
      GramNonNegative(n, d - 1, x, mu, y);
      GramAddsSquare(n, d, x, mu, y);
    }
  }

  /** One more feature adds the square of y's inner product with its deviations. */
  lemma GramAddsSquare(n: nat, d: nat, x: Mat, mu: Vec, y: Vec)
    requires d > 0
    ensures Form(n, Gram(d, x, mu), y, y) >= Form(n, Gram(d - 1, x, mu), y, y)
  {
    var g, g0 := Gram(d, x, mu), Gram(d - 1, x, mu);
    var u := Deviation(x, mu, d - 1);
    forall i | 0 <= i < n
      ensures Apply(n, g, y)(i) == 1.0 * Apply(n, g0, y)(i) + Dot(n, u, y) * u(i)
    {
      GramRow(n, d, x, mu, y, i);
    }
    DotLinear(n, y, 1.0, Apply(n, g0, y), Dot(n, u, y), u, Apply(n, g, y));
    DotSymmetric(n, y, u);
    SquareNonNegative(Dot(n, u, y));
  }

  lemma SquareNonNegative(x: real)
    ensures x * x >= 0.0
  {
  }

  lemma GramRow(n: nat, d: nat, x: Mat, mu: Vec, y: Vec, i: nat)
    requires d > 0
    ensures var u := Deviation(x, mu, d - 1);
            Apply(n, Gram(d, x, mu), y)(i) == 1.0 * Apply(n, Gram(d - 1, x, mu), y)(i) + Dot(n, u, y) * u(i)
  {
    var g, g0 := Gram(d, x, mu), Gram(d - 1, x, mu);
    var u := Deviation(x, mu, d - 1);
    forall j | 0 <= j < n
      ensures Times(Row(g, i), y)(j) == 1.0 * Times(Row(g0, i), y)(j) + u(i) * Times(u, y)(j)
    {
      assert g(i, j) == g0(i, j) + u(i) * u(j);
    }
    SumLinear(n, 1.0, Times(Row(g0, i), y), u(i), Times(u, y), Times(Row(g, i), y));
  }

  lemma FormOfEqual(n: nat, a: Mat, b: Mat, x: Vec, y: Vec)
    requires Agree(n, a, b)
    ensures Form(n, a, x, y) == Form(n, b, x, y)
  {
    forall i | 0 <= i < n
      ensures Apply(n, a, y)(i) == Apply(n, b, y)(i)
    {
      SumExt(n, Times(Row(a, i), y), Times(Row(b, i), y));
    }
    SumExt(n, Times(x, Apply(n, a, y)), Times(x, Apply(n, b, y)));
  }

  /** Every eigenvalue found for centred Euclidean distances is non-negative. */
  lemma EigenvaluesNonNegative(n: nat, d: nat, x: Mat, mu: Vec, b: Mat, vals: Vec, v: Mat, off: real, k: nat)
    requires Agree(n, b, Gram(d, x, mu)) && Jacobi.Eigenpairs(n, b, vals, v, off) && k < n
    ensures vals(k) >= 0.0
  {
    hide Gram, Form;
    FormOfEqual(n, b, Gram(d, x, mu), Col(v, k), Col(v, k));
    GramNonNegative(n, d, x, mu, Col(v, k));
  }

  /** Together the eigenvalues are the total squared deviation of the features. */
  lemma EigenvaluesSumToScatter(n: nat, d: nat, x: Mat, mu: Vec, b: Mat, vals: Vec, v: Mat, off: real)
    requires Agree(n, b, Gram(d, x, mu)) && Jacobi.Eigenpairs(n, b, vals, v, off)
    ensures Sum(n, vals) == Sum(n, i => Sum(d, Deviations(x, mu, i, i)))
  {
    SumExt(n, Diagonal(b), i => Sum(d, Deviations(x, mu, i, i)));
  }
}
