/** The numeric outlier detector of internal/report/outlier.go, over the reals: median, median absolute
    deviation, and how much of a population they can flag. */
module RobustStats {
  import opened Populations
  import opened SetFacts
  import opened Sorting
  import opened Arith

  const MIN_MAD_SAMPLE := 8
  const MAD_SCALE := 0.6745
  const MIN_STRING_MODE_MASS := 0.6

  // ----- Sorting and counting

  predicate Ascending(s: seq<real>) {
    forall i, j :: 0 <= i < j < |s| ==> s[i] <= s[j]
  }

  predicate Less(a: real, b: real) {
    a < b
  }

  /** sort.Float64s: the values in ascending order. */
  function Ordered(s: seq<real>): (r: seq<real>)
    ensures Ascending(r) && |r| == |s| && multiset(r) == multiset(s)
  {
    SortedAscending(Less, s);
    Sorted(Less, s)
  }

  /** How many values satisfy p. */
  ghost function Count(s: seq<real>, p: real -> bool): (c: nat)
    ensures c <= |s|
  {
    if s == [] then 0 else Count(s[..|s| - 1], p) + if p(s[|s| - 1]) then 1 else 0
  }

  lemma {:induction false} CountConcat(a: seq<real>, b: seq<real>, p: real -> bool)
    ensures Count(a + b, p) == Count(a, p) + Count(b, p)
  {
    if b == [] {
      assert a + b == a;
    } else {
      CountConcat(a, b[..|b| - 1], p);
      assert (a + b)[..|a + b| - 1] == a + b[..|b| - 1];
    }
  }

  lemma {:induction false} CountPermuted(a: seq<real>, b: seq<real>, p: real -> bool)
    requires multiset(a) == multiset(b)
    ensures Count(a, p) == Count(b, p)
  {
    if a == [] {
      assert |multiset(b)| == 0;
    } else {
      var i := MatchLast(a, b);
      CountPermuted(a[..|a| - 1], b[..i] + b[i + 1..], p);
      assert b == b[..i] + [b[i]] + b[i + 1..];
      CountConcat(b[..i], b[i + 1..], p);
      CountConcat(b[..i] + [b[i]], b[i + 1..], p);
      CountConcat(b[..i], [b[i]], p);
      assert [b[i]][..0] == [];
    }
  }

  lemma {:induction false} CountNone(s: seq<real>, p: real -> bool)
    requires forall i :: 0 <= i < |s| ==> !p(s[i])
    ensures Count(s, p) == 0
  {
    if s != [] { CountNone(s[..|s| - 1], p); }
  }

  /** A stretch where p fails bounds the count. */
  lemma CountOutside(s: seq<real>, p: real -> bool, from: nat, to: nat)
    requires from <= to <= |s| && forall k :: from <= k < to ==> !p(s[k])
    ensures Count(s, p) <= |s| - (to - from)
  {
    assert s == s[..from] + s[from..to] + s[to..];
    CountConcat(s[..from] + s[from..to], s[to..], p);
    CountConcat(s[..from], s[from..to], p);
    CountNone(s[from..to], p);
  }

  // ----- Median and MAD

  /** The middle value, or the mean of the middle two; zero of no values. */
  function Median(vals: seq<real>): real {
    if vals == [] then 0.0
    else
      var sorted := Ordered(vals);
      if |vals| % 2 == 0 then (sorted[|vals| / 2 - 1] + sorted[|vals| / 2]) / 2.0 else sorted[|vals| / 2]
  }

  ghost function Deviations(vals: seq<real>, median: real): (d: seq<real>)
    ensures |d| == |vals| && forall i :: 0 <= i < |vals| ==> d[i] == Abs(vals[i] - median)
  {
    seq(|vals|, i requires 0 <= i < |vals| => Abs(vals[i] - median))
  }

  /** The median absolute deviation from the median. */
  method ComputeMAD(vals: seq<real>, median: real) returns (mad: real)
    ensures mad == Median(Deviations(vals, median))
  {
    var deviations := [];
    for i := 0 to |vals|
      invariant |deviations| == i && forall k :: 0 <= k < i ==> deviations[k] == Abs(vals[k] - median)
    {
      deviations := deviations + [Abs(vals[i] - median)];
    }
    assert deviations == Deviations(vals, median);
    mad := Median(deviations);
  }

  ghost function Within(lo: real, hi: real): real -> bool {
    v => lo <= v <= hi
  }

  ghost function Above(bound: real): real -> bool {
    v => v > bound
  }

  /** More than half of the values lie in [lo, hi]. */
  ghost predicate MostlyWithin(vals: seq<real>, lo: real, hi: real) {
    2 * Count(vals, Within(lo, hi)) > |vals|
  }

  /** Whatever the other values are, the median lies where more than half of the values do. */
  lemma MedianResists(vals: seq<real>, lo: real, hi: real)
    requires MostlyWithin(vals, lo, hi)
    ensures lo <= Median(vals) <= hi
  {
    hide Count;
    var t, n := Ordered(vals), |vals|;
    CountPermuted(t, vals, Within(lo, hi));
    MiddleWithin(t, lo, hi, n / 2);
    if n % 2 == 0 { MiddleWithin(t, lo, hi, n / 2 - 1); }
  }

  lemma MiddleWithin(t: seq<real>, lo: real, hi: real, k: nat)
    requires Ascending(t) && MostlyWithin(t, lo, hi)
    requires k == |t| / 2 || (|t| % 2 == 0 && k == |t| / 2 - 1)
    ensures k < |t| && lo <= t[k] <= hi
  {
    if t[k] < lo { CountOutside(t, Within(lo, hi), 0, k + 1); }
    if t[k] > hi { CountOutside(t, Within(lo, hi), k, |t|); }
  }

  lemma {:induction false} CountImplied(a: seq<real>, p: real -> bool, b: seq<real>, q: real -> bool)
    requires |a| == |b| && forall i :: 0 <= i < |a| && p(a[i]) ==> q(b[i])
    ensures Count(a, p) <= Count(b, q)
  {
    if a != [] { CountImplied(a[..|a| - 1], p, b[..|b| - 1], q); }
  }

  /** ... and the MAD is at most the width of that interval. */
  lemma MadResists(vals: seq<real>, lo: real, hi: real)
    requires MostlyWithin(vals, lo, hi)
    ensures 0.0 <= Median(Deviations(vals, Median(vals))) <= hi - lo
  {
    hide Count, Median;
    var median := Median(vals);
    var deviations := Deviations(vals, median);
    MedianResists(vals, lo, hi);
    CountImplied(vals, Within(lo, hi), deviations, Within(0.0, hi - lo));
    MedianResists(deviations, 0.0, hi - lo);
  }

  /** No more than half of ascending values exceed a bound the lower middle one meets. */
  lemma HalfAbove(t: seq<real>, k: nat, bound: real)
    requires Ascending(t) && k < |t| && 2 * (k + 1) >= |t| && t[k] <= bound
    ensures 2 * Count(t, Above(bound)) <= |t|
  {
    CountOutside(t, Above(bound), 0, k + 1);
  }

  /** The lower middle value is no more than the median. */
  lemma LowerMiddle(vals: seq<real>)
    requires vals != []
    ensures Ordered(vals)[(|vals| - 1) / 2] <= Median(vals)
  {
    hide Ordered;
    var t, n := Ordered(vals), |vals|;
    if n % 2 == 0 {
      assert (n - 1) / 2 == n / 2 - 1;
      assert t[n / 2 - 1] <= t[n / 2];
    } else {
      assert (n - 1) / 2 == n / 2;
    }
  }

  /** No more than half of the values exceed the median. */
  lemma HalfAboveMedian(vals: seq<real>)
    ensures 2 * Count(vals, Above(Median(vals))) <= |vals|
  {
    hide Count, Median, Ordered;
    var median := Median(vals);
    CountPermuted(Ordered(vals), vals, Above(median));
    if vals == [] {
      CountNone(vals, Above(median));
    } else {
      LowerMiddle(vals);
      HalfAbove(Ordered(vals), (|vals| - 1) / 2, median);
    }
  }

  // ----- The detector

  ghost function ValuesOf(order: seq<string>, values: map<string, real>): (vals: seq<real>)
    requires forall c :: c in order ==> c in values
    ensures |vals| == |order| && forall i :: 0 <= i < |order| ==> vals[i] == values[order[i]]
  {
    seq(|order|, i requires 0 <= i < |order| => values[order[i]])
  }

  /** The modified z-score. */
  function Score(v: real, median: real, mad: real): real
    requires mad != 0.0
  {
    MAD_SCALE * (v - median) / mad
  }

  ghost function AtMedian(median: real): real -> bool {
    v => v == median
  }

  /** What the detector flags of a population: with a MAD, the values beyond the threshold; without
      one, all values off the median when at least the mode mass is at it; nothing of a small one. */
  ghost predicate Flags(order: seq<string>, values: map<string, real>, threshold: real, c: string)
    requires forall c :: c in order ==> c in values
  {
    var vals := ValuesOf(order, values);
    var median := Median(vals);
    var mad := Median(Deviations(vals, median));
    && c in order && |vals| >= MIN_MAD_SAMPLE
    && (if mad != 0.0 then Abs(Score(values[c], median, mad)) > threshold
        else values[c] != median
             && Count(vals, AtMedian(median)) as real / |vals| as real >= MIN_STRING_MODE_MASS)
  }

  lemma ScaledScore(v: real, median: real, mad: real, threshold: real)
    requires mad > 0.0
    ensures Abs(Score(v, median, mad)) > threshold <==> 0.6745 * Abs(v - median) > threshold * mad
  {
    var d := Abs(v - median);
    var q := 0.6745 * d / mad;
    assert q * mad == 0.6745 * d;
    AbsScore(v, median, mad);
    Crosses(q - threshold, mad);
    TakesOff(q, threshold, mad);
  }

  lemma AbsScore(v: real, median: real, mad: real)
    requires mad > 0.0
    ensures Abs(Score(v, median, mad)) == 0.6745 * Abs(v - median) / mad
  {
    var up := 0.6745 * Abs(v - median) / mad;
    assert up * mad == 0.6745 * Abs(v - median);
    Crosses(up, mad);
  }

  lemma Crosses(x: real, m: real)
    requires m > 0.0
    ensures x > 0.0 <==> x * m > 0.0
  {
    if x <= 0.0 {
      assert -x * m >= 0.0;
    }
  }

  lemma KeepsSign(x: real, m: real)
    requires m > 0.0
    ensures x >= 0.0 <==> x * m >= 0.0
  {
    if x < 0.0 {
      assert (-x) * m > 0.0;
    }
  }

  lemma ShareOfTen(count: nat, n: nat)
    requires n > 0
    ensures count as real / n as real >= MIN_STRING_MODE_MASS <==> 10 * count >= 6 * n
  {
    var share := count as real / n as real;
    assert share * n as real == count as real;
    KeepsSign(share - 0.6, n as real);
    TakesOff(share, 0.6, n as real);
    assert (10 * count) as real == 10.0 * count as real && (6 * n) as real == 6.0 * n as real;
  }

  lemma TakesOff(x: real, y: real, m: real)
    ensures (x - y) * m == x * m - y * m
  {
  }

  /** What is flagged, free of division: of eight clusters or more, those 0.6745 of whose distance from the median
      exceeds the threshold in MADs; where the MAD is zero, all off the median if six in ten are at it. */
  lemma FlagsMeans(order: seq<string>, values: map<string, real>, threshold: real, c: string)
    requires (forall o :: o in order ==> o in values) && c in order
    ensures var vals := ValuesOf(order, values);
            var median := Median(vals);
            var mad := Median(Deviations(vals, median));
            Flags(order, values, threshold, c) <==>
            |order| >= 8 && if mad != 0.0 then 0.6745 * Abs(values[c] - median) > threshold * mad
                            else values[c] != median && 10 * Count(vals, AtMedian(median)) >= 6 * |order|
  {
    hide Median, Deviations, Score, Count, Abs;
    var vals := ValuesOf(order, values);
    var median := Median(vals);
    MadNonNegative(vals, median);
    if Median(Deviations(vals, median)) > 0.0 {
      ScaledScore(values[c], median, Median(Deviations(vals, median)), threshold);
    }
    ShareOfTen(Count(vals, AtMedian(median)), |order|);
  }

  /** When the MAD is zero every cluster off the median is flagged, if enough of them are at it. */
  method ExactOutliers(order: seq<string>, values: map<string, real>, median: real) returns (flagged: seq<string>)
    requires forall c :: c in order ==> c in values
    requires |order| > 0
    ensures forall c :: c in flagged <==>
              && c in order && values[c] != median
              && Count(ValuesOf(order, values), AtMedian(median)) as real / |order| as real >= MIN_STRING_MODE_MASS
    ensures NoDuplicates(order) ==> NoDuplicates(flagged)
  {
    var atMedian := 0;
    ghost var vals := ValuesOf(order, values);
    for i := 0 to |order|
      invariant atMedian == Count(vals[..i], AtMedian(median))
    {
      assert vals[..i + 1][..i] == vals[..i];
      if values[order[i]] == median {
        atMedian := atMedian + 1;
      }
    }
    assert vals[..|order|] == vals;
    var share := atMedian as real / |order| as real;
    flagged := [];
    if share < MIN_STRING_MODE_MASS {
      return;
    }
    for i := 0 to |order|
      invariant forall c :: c in flagged <==> c in order[..i] && values[c] != median
      invariant NoDuplicates(order) ==> NoDuplicates(flagged)
    {
      assert order[..i + 1] == order[..i] + [order[i]];
      assert NoDuplicates(order) ==> order[i] !in order[..i];
      if values[order[i]] != median {
        flagged := flagged + [order[i]];
      }
    }
    assert order[..|order|] == order;
  }

  /** The clusters whose score is beyond the threshold, in map order. */
  method BeyondThreshold(values: map<string, real>, population: set<string>, median: real, mad: real, threshold: real)
    returns (flagged: seq<string>)
    requires mad != 0.0 && population <= values.Keys
    ensures forall c :: c in flagged <==> c in population && Abs(Score(values[c], median, mad)) > threshold
    ensures NoDuplicates(flagged)
  {
    hide Score, Abs;
    flagged := [];
    var todo := population;
    while todo != {}
      invariant todo <= population
      invariant forall c :: c in flagged <==>
                  c in population && c !in todo && Abs(Score(values[c], median, mad)) > threshold
      invariant NoDuplicates(flagged)
    {
      ghost var some := Member(todo);
      var c :| c in todo;
      if Abs(Score(values[c], median, mad)) > threshold {
        flagged := flagged + [c];
      }
      todo := todo - {c};
    }
  }

  /** The clusters that report a number, in order, with their numbers. */
  method Collect(clusters: seq<string>, values: map<string, real>) returns (order: seq<string>, vals: seq<real>)
    ensures order == Population(clusters, values) && vals == ValuesOf(order, values)
  {
    order, vals := [], [];
    for i := 0 to |clusters|
      invariant order == Population(clusters[..i], values) && vals == ValuesOf(order, values)
    {
      assert clusters[..i + 1][..i] == clusters[..i];
      if clusters[i] in values {
        order := order + [clusters[i]];
        vals := vals + [values[clusters[i]]];
      }
    }
    assert clusters[..|clusters|] == clusters;
  }

  /** Flags the clusters off the norm of their population. */
  method DetectNumericOutliers(clusters: seq<string>, values: map<string, real>, threshold: real)
    returns (flagged: seq<string>)
    ensures forall c :: c in flagged <==> Flags(Population(clusters, values), values, threshold, c)
    ensures NoDuplicates(clusters) ==> NoDuplicates(flagged)
  {
    hide Median, Deviations, Score, Count, Population;
    var order, vals := Collect(clusters, values);
    if NoDuplicates(clusters) { PopulationOnce(clusters, values); }
    flagged := [];
    if |vals| < MIN_MAD_SAMPLE {
      return;
    }
    var median := Median(vals);
    var mad := ComputeMAD(vals, median);
    if mad == 0.0 {
      flagged := ExactOutliers(order, values, median);
    } else {
      flagged := BeyondThreshold(values, (set c | c in order), median, mad, threshold);
    }
  }

  // ----- How much can be flagged

  /** Beyond the threshold means farther from the median than the MAD, when the threshold is the scale or more. */
  lemma BeyondIsAboveMad(v: real, median: real, mad: real, threshold: real)
    requires mad > 0.0 && threshold >= MAD_SCALE
    requires Abs(Score(v, median, mad)) > threshold
    ensures Abs(v - median) > mad
  {
    var score := Score(v, median, mad);
    assert score * mad == MAD_SCALE * (v - median);
    if Abs(v - median) <= mad {
      ScaleBound(score, mad, MAD_SCALE * (v - median));
    }
  }

  lemma ScaleBound(score: real, mad: real, x: real)
    requires mad > 0.0 && score * mad == x && -(MAD_SCALE * mad) <= x <= MAD_SCALE * mad
    ensures -MAD_SCALE <= score <= MAD_SCALE
  {
    assert (score - MAD_SCALE) * mad <= 0.0;
    assert (score + MAD_SCALE) * mad >= 0.0;
  }

  /** How many of the first k clusters are flagged. */
  ghost function FlaggedCount(order: seq<string>, values: map<string, real>, threshold: real, k: nat): nat
    requires k <= |order| && forall c :: c in order ==> c in values
  {
    if k == 0 then 0
    else FlaggedCount(order, values, threshold, k - 1) + if Flags(order, values, threshold, order[k - 1]) then 1 else 0
  }

  lemma {:induction false} FlaggedAtMost(order: seq<string>, values: map<string, real>, threshold: real, k: nat,
                                         b: seq<real>, q: real -> bool)
    requires k <= |order| == |b| && forall c :: c in order ==> c in values
    requires forall i :: 0 <= i < k && Flags(order, values, threshold, order[i]) ==> q(b[i])
    ensures FlaggedCount(order, values, threshold, k) <= Count(b[..k], q)
  {
    hide Flags;
    if k > 0 {
      FlaggedAtMost(order, values, threshold, k - 1, b, q);
      assert b[..k][..k - 1] == b[..k - 1];
    }
  }

  lemma MadNonNegative(vals: seq<real>, median: real)
    ensures Median(Deviations(vals, median)) >= 0.0
  {
    var d := Deviations(vals, median);
    if d != [] {
      var t := Ordered(d);
      forall x | x in t ensures x >= 0.0 {
        assert x in multiset(t) && x in multiset(d);
        assert x in d;
      }
      LowerMiddle(d);
      assert t[(|d| - 1) / 2] in t;
    }
  }

  ghost function Off(median: real): real -> bool {
    v => v != median
  }

  lemma {:induction false} CountSplit(s: seq<real>, median: real)
    ensures Count(s, AtMedian(median)) + Count(s, Off(median)) == |s|
  {
    if s != [] { CountSplit(s[..|s| - 1], median); }
  }

  lemma HalfBeyondMad(order: seq<string>, values: map<string, real>, threshold: real, median: real, mad: real)
    requires forall c :: c in order ==> c in values
    requires median == Median(ValuesOf(order, values)) && mad == Median(Deviations(ValuesOf(order, values), median))
    requires threshold >= MAD_SCALE && mad != 0.0
    ensures 2 * FlaggedCount(order, values, threshold, |order|) <= |order|
  {
    hide Median, Count, FlaggedCount;
    var vals := ValuesOf(order, values);
    var deviations := Deviations(vals, median);
    MadNonNegative(vals, median);
    forall i | 0 <= i < |order| && Flags(order, values, threshold, order[i])
      ensures Above(mad)(deviations[i])
    {
      BeyondIsAboveMad(vals[i], median, mad, threshold);
    }
    FlaggedAtMost(order, values, threshold, |order|, deviations, Above(mad));
    assert deviations[..|order|] == deviations;
    HalfAboveMedian(deviations);
  }

  lemma HalfOffMedian(order: seq<string>, values: map<string, real>, threshold: real, i: nat)
    requires forall c :: c in order ==> c in values
    requires i < |order| && Flags(order, values, threshold, order[i])
    requires Median(Deviations(ValuesOf(order, values), Median(ValuesOf(order, values)))) == 0.0
    ensures 2 * FlaggedCount(order, values, threshold, |order|) <= |order|
  {
    hide Median, Count, FlaggedCount, Deviations;
    var vals := ValuesOf(order, values);
    var median := Median(vals);
    FlaggedAtMost(order, values, threshold, |order|, vals, Off(median));
    assert vals[..|order|] == vals;
    CountSplit(vals, median);
    MostAtMedian(Count(vals, AtMedian(median)), |order|);
  }

  /** With a threshold of the scale or more, no more than half of any population is flagged. */
  lemma AtMostHalfFlagged(order: seq<string>, values: map<string, real>, threshold: real)
    requires forall c :: c in order ==> c in values
    requires threshold >= MAD_SCALE
    ensures 2 * FlaggedCount(order, values, threshold, |order|) <= |order|
  {
    hide Median, Count, FlaggedCount, Flags, Deviations;
    var vals := ValuesOf(order, values);
    var mad := Median(Deviations(vals, Median(vals)));
    if mad != 0.0 {
      HalfBeyondMad(order, values, threshold, Median(vals), mad);
    } else if i :| 0 <= i < |order| && Flags(order, values, threshold, order[i]) {
      HalfOffMedian(order, values, threshold, i);
    } else {
      FlaggedAtMost(order, values, threshold, |order|, vals, v => false);
      CountNone(vals[..|order|], v => false);
    }
  }

  lemma MostAtMedian(count: nat, n: nat)
    requires n > 0 && count as real / n as real >= MIN_STRING_MODE_MASS
    ensures 2 * count >= n
  {
    var share := count as real / n as real;
    assert share * n as real == count as real;
    assert (share - 0.6) * n as real >= 0.0;
  }

  /** Below the scale the bound fails: eight values, four to each side of the median, are all flagged. */
  lemma AllFlaggedBelowScale(threshold: real) returns (order: seq<string>, values: map<string, real>)
    requires threshold < MAD_SCALE
    ensures |order| == MIN_MAD_SAMPLE && forall c :: c in order ==> c in values
    ensures forall c :: c in order ==> Flags(order, values, threshold, c)
  {
    order := ["a", "b", "c", "d", "e", "f", "g", "h"];
    values := map["a" := 0.0, "b" := 0.0, "c" := 0.0, "d" := 0.0, "e" := 2.0, "f" := 2.0, "g" := 2.0, "h" := 2.0];
    hide Median, Count, Deviations;
    var vals := ValuesOf(order, values);
    assert vals == Levels();
    TwoLevels();
    assert Abs(Score(0.0, 1.0, 1.0)) == MAD_SCALE == Abs(Score(2.0, 1.0, 1.0));
  }

  /** The comment says a zero MAD flags nothing. It flags nothing exactly when all values are equal to the median or
      too few are. */
  lemma ZeroMadIsQuiet(order: seq<string>, values: map<string, real>, threshold: real)
    requires (forall c :: c in order ==> c in values) && |order| >= MIN_MAD_SAMPLE
    requires Median(Deviations(ValuesOf(order, values), Median(ValuesOf(order, values)))) == 0.0
    ensures var vals := ValuesOf(order, values);
            (forall c :: !Flags(order, values, threshold, c)) <==>
            || (forall v :: v in vals ==> v == Median(vals))
            || Count(vals, AtMedian(Median(vals))) as real / |vals| as real < MIN_STRING_MODE_MASS
  {
    hide Median, Count, Deviations, AtMedian;
    var vals := ValuesOf(order, values);
    var few := Count(vals, AtMedian(Median(vals))) as real / |vals| as real < MIN_STRING_MODE_MASS;
    forall i | 0 <= i < |order|
      ensures Flags(order, values, threshold, order[i]) <==> vals[i] != Median(vals) && !few
    {
    }
    if v :| v in vals && v != Median(vals) {
      var i :| 0 <= i < |vals| && vals[i] == v;
      assert Flags(order, values, threshold, order[i]) <==> !few;
    }
    forall c | Flags(order, values, threshold, c)
      ensures !few && exists v :: v in vals && v != Median(vals)
    {
      var i :| 0 <= i < |order| && order[i] == c;
      assert vals[i] in vals;
    }
  }

  /** One cluster of eight stands off the median of the other seven and is flagged, whatever the threshold. */
  lemma ZeroMadFlags(threshold: real) returns (order: seq<string>, values: map<string, real>)
    ensures |order| == MIN_MAD_SAMPLE && forall c :: c in order ==> c in values
    ensures Median(Deviations(ValuesOf(order, values), Median(ValuesOf(order, values)))) == 0.0
    ensures Flags(order, values, threshold, "h")
  {
    order := ["a", "b", "c", "d", "e", "f", "g", "h"];
    values := map["a" := 1.0, "b" := 1.0, "c" := 1.0, "d" := 1.0, "e" := 1.0, "f" := 1.0, "g" := 1.0, "h" := 5.0];
    hide Median, Count, Deviations;
    var vals := ValuesOf(order, values);
    assert vals == OneOff();
    OneOffTheNorm();
    MostAreOne();
    assert order[7] in order;
  }

  function OneOff(): seq<real> {
    seq(8, i => if i < 7 then 1.0 else 5.0)
  }

  lemma OneOffTheNorm()
    ensures Median(OneOff()) == 1.0 && Median(Deviations(OneOff(), 1.0)) == 0.0
  {
    hide Median;
    EvenMiddle(OneOff(), 4);
    var off := Deviations(OneOff(), 1.0);
    assert forall i :: 0 <= i < 8 ==> off[i] == if i < 7 then 0.0 else 4.0;
    EvenMiddle(off, 4);
  }

  lemma MostAreOne()
    ensures Count(OneOff(), AtMedian(1.0)) == 7
  {
    CountAll(OneOff()[..7], AtMedian(1.0));
  }

  lemma {:induction false} CountAll(s: seq<real>, p: real -> bool)
    requires forall i :: 0 <= i < |s| ==> p(s[i])
    ensures Count(s, p) == |s|
  {
    if s != [] { CountAll(s[..|s| - 1], p); }
  }

  function Levels(): seq<real> {
    seq(8, i => if i < 4 then 0.0 else 2.0)
  }

  lemma TwoLevels()
    ensures Median(Levels()) == 1.0 && Median(Deviations(Levels(), 1.0)) == 1.0
  {
    EvenMiddle(Levels(), 4);
    EvenMiddle(Deviations(Levels(), 1.0), 4);
    hide Median;
  }

  lemma EvenMiddle(t: seq<real>, h: nat)
    requires Ascending(t) && h > 0 && |t| == 2 * h
    ensures Median(t) == (t[h - 1] + t[h]) / 2.0
  {
    hide Ordered;
    AscendingIsSorted(t);
  }

  lemma {:induction false} InsertLast(x: real, s: seq<real>)
    requires forall i :: 0 <= i < |s| ==> s[i] <= x
    ensures Insert(Less, x, s) == s + [x]
  {
    if s != [] { InsertLast(x, s[1..]); }
  }

  /** Values in order are what sorting gives. */
  lemma {:induction false} AscendingIsSorted(s: seq<real>)
    requires Ascending(s)
    ensures Ordered(s) == s
  {
    if s != [] {
      AscendingIsSorted(s[..|s| - 1]);
      InsertLast(s[|s| - 1], s[..|s| - 1]);
    }
  }
}
