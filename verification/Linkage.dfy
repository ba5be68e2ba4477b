/** Average linkage by its definition: the merge sequence that always joins the least
    closest pair, by mean leaf distance. */
module Linkage {
  import opened RealSums
  import opened Matrices
  import opened SetFacts

  /** Merge s of n points joins clusters a and b into cluster n + s. */
  datatype Merge = Merge(a: int, b: int, dist: real)

  // ----- Clusters of a merge sequence

  ghost predicate WellFormed(ms: seq<Merge>, n: nat) {
    forall s :: 0 <= s < |ms| ==> 0 <= ms[s].a < n + s && 0 <= ms[s].b < n + s
  }

  /** The leaves of every cluster, left child first. */
  ghost function LeafTable(ms: seq<Merge>, n: nat): (t: seq<seq<int>>)
    requires WellFormed(ms, n)
    ensures |t| == n + |ms|
    ensures forall i :: 0 <= i < n ==> t[i] == [i]
    ensures forall i :: 0 <= i < |t| ==> t[i] != []
  {
    if ms == [] then seq(n, i => [i])
    else
      var m := ms[|ms| - 1];
      var t := LeafTable(ms[..|ms| - 1], n);
      t + [t[m.a] + t[m.b]]
  }

  /** Cluster id exists and has not been merged away. */
  ghost predicate Active(ms: seq<Merge>, n: nat, id: int) {
    0 <= id < n + |ms| && forall s :: 0 <= s < |ms| ==> ms[s].a != id && ms[s].b != id
  }

  /** Every merge joins two active clusters, the lower id first. */
  ghost predicate Proper(ms: seq<Merge>, n: nat)
    ensures Proper(ms, n) ==> WellFormed(ms, n)
  {
    ms == [] ||
    var m, rest := ms[|ms| - 1], ms[..|ms| - 1];
    Proper(rest, n) && m.a < m.b && Active(rest, n, m.a) && Active(rest, n, m.b)
  }

  /** The cluster that holds point i after the merges. */
  ghost function ClusterOf(ms: seq<Merge>, n: nat, i: int): int {
    if ms == [] then i
    else
      var m := ms[|ms| - 1];
      var c := ClusterOf(ms[..|ms| - 1], n, i);
      if c == m.a || c == m.b then n + |ms| - 1 else c
  }

  ghost predicate Points(xs: seq<int>, n: nat) {
    forall k :: 0 <= k < |xs| ==> 0 <= xs[k] < n
  }

  /** Every merge of a prefix is a merge of the whole, and their tables agree. */
  lemma {:induction false} LeafTablePrefix(ms: seq<Merge>, n: nat, s: nat)
    requires WellFormed(ms, n) && s <= |ms|
    ensures LeafTable(ms[..s], n) == LeafTable(ms, n)[..n + s]
  {
    if s < |ms| {
      LeafTablePrefix(ms[..|ms| - 1], n, s);
      assert ms[..|ms| - 1][..s] == ms[..s];
    } else {
      assert ms[..s] == ms;
    }
  }

  lemma {:induction false} ProperPrefix(ms: seq<Merge>, n: nat, s: nat)
    requires Proper(ms, n) && s <= |ms|
    ensures Proper(ms[..s], n)
  {
    if s < |ms| {
      ProperPrefix(ms[..|ms| - 1], n, s);
      assert ms[..|ms| - 1][..s] == ms[..s];
    } else {
      assert ms[..s] == ms;
    }
  }

  /** What a merge leaves active: the new cluster and every other one that was. */
  lemma ActiveAfter(ms: seq<Merge>, n: nat, id: int)
    requires ms != []
    ensures var m, rest := ms[|ms| - 1], ms[..|ms| - 1];
            Proper(ms, n) ==>
              (Active(ms, n, id) <==> id == n + |rest| || (Active(rest, n, id) && id != m.a && id != m.b))
  {
    var m, rest := ms[|ms| - 1], ms[..|ms| - 1];
    if Proper(ms, n) {
      forall s | 0 <= s < |rest| ensures rest[s] == ms[s] {
      }
      if id == n + |rest| {
        assert ms[|rest|] == m;
        assert WellFormed(rest, n);
        forall s | 0 <= s < |ms| ensures ms[s].a != id && ms[s].b != id {
          if s < |rest| { assert rest[s].a < n + s && rest[s].b < n + s; }
        }
      }
    }
  }

  /** Point i is a leaf of its cluster and of no other active one. */
  lemma {:induction false} LeavesOfCluster(ms: seq<Merge>, n: nat, id: int, i: int)
    requires Proper(ms, n) && Active(ms, n, id)
    ensures i in LeafTable(ms, n)[id] <==> 0 <= i < n && ClusterOf(ms, n, i) == id
  {
    if ms != [] {
      var m, rest := ms[|ms| - 1], ms[..|ms| - 1];
      var t0 := LeafTable(rest, n);
      ActiveAfter(ms, n, id);
      if id == n + |rest| {
        LeavesOfCluster(rest, n, m.a, i);
        LeavesOfCluster(rest, n, m.b, i);
        assert i in t0[m.a] + t0[m.b] <==> i in t0[m.a] || i in t0[m.b];
        if 0 <= i < n { ClusterActive(rest, n, i); }
      } else {
        LeavesOfCluster(rest, n, id, i);
      }
    }
  }

  lemma {:induction false} ClusterActive(ms: seq<Merge>, n: nat, i: nat)
    requires Proper(ms, n) && i < n
    ensures Active(ms, n, ClusterOf(ms, n, i))
  {
    if ms != [] {
      ClusterActive(ms[..|ms| - 1], n, i);
      ActiveAfter(ms, n, ClusterOf(ms, n, i));
    }
  }

  /** Every cluster has leaves, all points, none twice. */
  lemma {:induction false} LeavesDistinct(ms: seq<Merge>, n: nat, id: nat)
    requires Proper(ms, n) && id < n + |ms|
    ensures LeafTable(ms, n)[id] != [] && NoDuplicates(LeafTable(ms, n)[id]) && Points(LeafTable(ms, n)[id], n)
  {
    if ms != [] {
      var m, rest := ms[|ms| - 1], ms[..|ms| - 1];
      var t0 := LeafTable(rest, n);
      if id == n + |rest| {
        LeavesDistinct(rest, n, m.a);
        LeavesDistinct(rest, n, m.b);
        forall i | i in t0[m.a]
          ensures i !in t0[m.b]
        {
          LeavesOfCluster(rest, n, m.a, i);
          LeavesOfCluster(rest, n, m.b, i);
        }
        DisjointConcat(t0[m.a], t0[m.b]);
      } else {
        LeavesDistinct(rest, n, id);
      }
    }
  }

  lemma DisjointConcat(xs: seq<int>, ys: seq<int>)
    requires NoDuplicates(xs) && NoDuplicates(ys)
    requires forall i :: i in xs ==> i !in ys
    ensures NoDuplicates(xs + ys)
  {
    forall i, j | 0 <= i < j < |xs + ys|
      ensures (xs + ys)[i] != (xs + ys)[j]
    {
      if i < |xs| <= j { assert xs[i] in xs && ys[j - |xs|] in ys; }
    }
  }

  // ----- How many clusters are left

  ghost function ActiveSet(ms: seq<Merge>, n: nat): (s: set<int>)
    ensures forall id :: id in s <==> Active(ms, n, id)
  {
    set id | 0 <= id < n + |ms| && Active(ms, n, id)
  }

  lemma {:induction false} ActiveCount(ms: seq<Merge>, n: nat)
    requires Proper(ms, n)
    ensures |ActiveSet(ms, n)| == n - |ms|
  {
    if ms == [] {
      PointSetSize(n);
      assert ActiveSet([], n) == PointSet(n);
    } else {
      var m, rest := ms[|ms| - 1], ms[..|ms| - 1];
      ActiveCount(rest, n);
      var s0, s := ActiveSet(rest, n), ActiveSet(ms, n);
      forall id ensures id in s <==> id in s0 - {m.a} - {m.b} + {n + |rest|} {
        ActiveAfter(ms, n, id);
      }
      assert s == s0 - {m.a} - {m.b} + {n + |rest|};
    }
  }

  ghost function PointSet(n: nat): (s: set<int>)
    ensures forall i :: i in s <==> 0 <= i < n
  {
    if n == 0 then {} else PointSet(n - 1) + {n - 1}
  }

  lemma {:induction false} PointSetSize(n: nat)
    ensures |PointSet(n)| == n
  {
    if n > 0 { PointSetSize(n - 1); }
  }

  // ----- Mean distances

  ghost function RowTotal(dist: Mat, x: int, ys: seq<int>): real {
    if ys == [] then 0.0 else dist(x, ys[0]) + RowTotal(dist, x, ys[1..])
  }

  /** The sum of the distances of all pairs from xs and ys. */
  ghost function PairSum(dist: Mat, xs: seq<int>, ys: seq<int>): real {
    if xs == [] then 0.0 else RowTotal(dist, xs[0], ys) + PairSum(dist, xs[1..], ys)
  }

  /** The mean of the distances of all pairs from xs and ys. */
  ghost function Average(dist: Mat, xs: seq<int>, ys: seq<int>): real
    requires xs != [] && ys != []
  {
    PerPair(PairSum(dist, xs, ys), |xs|, |ys|)
  }

  /** A total over a * c pairs, per pair. */
  ghost function PerPair(total: real, a: int, c: int): real
    requires a > 0 && c > 0
  {
    Positive(a as real, c as real);
    total / (a as real * c as real)
  }

  lemma Positive(a: real, c: real)
    requires a > 0.0 && c > 0.0
    ensures a * c > 0.0
  {
  }

  lemma {:induction false} PairSumAppend(dist: Mat, xs: seq<int>, xs': seq<int>, ys: seq<int>)
    ensures PairSum(dist, xs + xs', ys) == PairSum(dist, xs, ys) + PairSum(dist, xs', ys)
  {
    if xs == [] {
      assert xs + xs' == xs';
    } else {
      PairSumAppend(dist, xs[1..], xs', ys);
      assert (xs + xs')[1..] == xs[1..] + xs';
    }
  }

  lemma {:induction false} PairSumCons(dist: Mat, xs: seq<int>, ys: seq<int>)
    requires ys != []
    ensures PairSum(dist, xs, ys) == PairSum(dist, xs, [ys[0]]) + PairSum(dist, xs, ys[1..])
  {
    if xs != [] {
      PairSumCons(dist, xs[1..], ys);
      assert RowTotal(dist, xs[0], [ys[0]]) == dist(xs[0], ys[0]) + RowTotal(dist, xs[0], []);
    }
  }

  lemma {:induction false} PairSumEmpty(dist: Mat, xs: seq<int>)
    ensures PairSum(dist, xs, []) == 0.0
  {
    if xs != [] { PairSumEmpty(dist, xs[1..]); }
  }

  lemma {:induction false} PairSumOne(dist: Mat, n: nat, xs: seq<int>, y: int)
    requires Symmetric(n, dist) && 0 <= y < n && Points(xs, n)
    ensures PairSum(dist, xs, [y]) == RowTotal(dist, y, xs)
  {
    if xs != [] {
      PairSumOne(dist, n, xs[1..], y);
      assert RowTotal(dist, xs[0], [y]) == dist(xs[0], y) + RowTotal(dist, xs[0], []);
    }
  }

  /** Symmetric distances give a symmetric total. */
  lemma {:induction false} PairSumSymmetric(dist: Mat, n: nat, xs: seq<int>, ys: seq<int>)
    requires Symmetric(n, dist)
    requires Points(xs, n) && Points(ys, n)
    ensures PairSum(dist, xs, ys) == PairSum(dist, ys, xs)
  {
    if ys == [] {
      PairSumEmpty(dist, xs);
    } else {
      PairSumCons(dist, xs, ys);
      PairSumOne(dist, n, xs, ys[0]);
      PairSumSymmetric(dist, n, xs, ys[1..]);
    }
  }

  lemma AverageSymmetric(dist: Mat, n: nat, xs: seq<int>, ys: seq<int>)
    requires Symmetric(n, dist) && xs != [] && ys != []
    requires Points(xs, n) && Points(ys, n)
    ensures Average(dist, xs, ys) == Average(dist, ys, xs)
  {
    PairSumSymmetric(dist, n, xs, ys);
  }

  /** The size-weighted mean of two distances. */
  function Weighted(da: real, sa: int, db: real, sb: int): real
    requires sa + sb > 0
  {
    (da * sa as real + db * sb as real) / (sa + sb) as real
  }

  /** The size-weighted update is the mean over the joined cluster. */
  lemma AverageOfUnion(dist: Mat, xs: seq<int>, xs': seq<int>, ys: seq<int>)
    requires xs != [] && xs' != [] && ys != []
    ensures Average(dist, xs + xs', ys) ==
            Weighted(Average(dist, xs, ys), |xs|, Average(dist, xs', ys), |xs'|)
  {
    PairSumAppend(dist, xs, xs', ys);
    assert |xs + xs'| == |xs| + |xs'|;
    WeightedMean(PairSum(dist, xs, ys), PairSum(dist, xs', ys), |xs|, |xs'|, |ys|);
  }

  lemma WeightedMean(p: real, q: real, na: int, nb: int, nc: int)
    requires na > 0 && nb > 0 && nc > 0
    ensures PerPair(p + q, na + nb, nc) == Weighted(PerPair(p, na, nc), na, PerPair(q, nb, nc), nb)
  {
    var a, b, c := na as real, nb as real, nc as real;
    assert (na + nb) as real == a + b;
    Cancel(p, a, c);
    Cancel(q, b, c);
    Positive(a + b, c);
    var x := p / (a * c) * a + q / (b * c) * b;
    assert x * c == p + q;
    var y := x / (a + b);
    assert y * (a + b) == x;
    assert y * ((a + b) * c) == p + q;
  }

  lemma Cancel(p: real, a: real, c: real)
    requires a > 0.0 && c > 0.0
    ensures a * c > 0.0 && (p / (a * c) * a) * c == p
  {
    var z := p / (a * c);
    assert z * (a * c) == p;
  }

  // ----- Average linkage by definition

  /** The mean distance between clusters i and j of the merges. */
  ghost function ClusterDistance(dist: Mat, ms: seq<Merge>, n: nat, i: int, j: int): real
    requires Proper(ms, n) && 0 <= i < n + |ms| && 0 <= j < n + |ms|
  {
    Average(dist, LeafTable(ms, n)[i], LeafTable(ms, n)[j])
  }

  /** The order in which candidate pairs win: by distance, then lowest ids. */
  ghost predicate Before(v: real, i: int, j: int, v': real, i': int, j': int) {
    v < v' || (v == v' && (i < i' || (i == i' && j <= j')))
  }

  /** m joins the first pair of active clusters in that order. */
  ghost predicate JoinsLeast(dist: Mat, ms: seq<Merge>, n: nat, m: Merge)
    requires Proper(ms, n)
  {
    && Active(ms, n, m.a) && Active(ms, n, m.b) && m.a < m.b
    && m.dist == ClusterDistance(dist, ms, n, m.a, m.b)
    && forall i, j :: Active(ms, n, i) && Active(ms, n, j) && i < j ==>
         Before(m.dist, m.a, m.b, ClusterDistance(dist, ms, n, i, j), i, j)
  }

  /** Every merge joins the first pair of what the merges before it left. */
  ghost predicate AverageLinkage(dist: Mat, n: nat, ms: seq<Merge>)
    ensures AverageLinkage(dist, n, ms) ==> Proper(ms, n)
  {
    ms == [] ||
    var m, rest := ms[|ms| - 1], ms[..|ms| - 1];
    AverageLinkage(dist, n, rest) && JoinsLeast(dist, rest, n, m)
  }

  lemma {:induction false} AverageLinkagePrefix(dist: Mat, n: nat, ms: seq<Merge>, s: nat)
    requires AverageLinkage(dist, n, ms) && s <= |ms|
    ensures AverageLinkage(dist, n, ms[..s])
    ensures s < |ms| ==> JoinsLeast(dist, ms[..s], n, ms[s])
  {
    if s < |ms| {
      AverageLinkagePrefix(dist, n, ms[..|ms| - 1], s);
      assert ms[..|ms| - 1][..s] == ms[..s];
    } else {
      assert ms[..s] == ms;
    }
  }

  lemma LeastIsUnique(dist: Mat, ms: seq<Merge>, n: nat, m: Merge, m': Merge)
    requires Proper(ms, n) && JoinsLeast(dist, ms, n, m) && JoinsLeast(dist, ms, n, m')
    ensures m == m'
  {
    assert Before(m.dist, m.a, m.b, m'.dist, m'.a, m'.b);
    assert Before(m'.dist, m'.a, m'.b, m.dist, m.a, m.b);
  }

  /** The definition leaves no choice: two merge sequences of one length are equal. */
  lemma {:induction false} AverageLinkageUnique(dist: Mat, n: nat, ms: seq<Merge>, ms': seq<Merge>)
    requires AverageLinkage(dist, n, ms) && AverageLinkage(dist, n, ms') && |ms| == |ms'|
    ensures ms == ms'
  {
    hide JoinsLeast;
    if ms != [] {
      var k := |ms| - 1;
      AverageLinkageUnique(dist, n, ms[..k], ms'[..k]);
      assert ms == ms[..k] + [ms[k]] && ms' == ms'[..k] + [ms'[k]];
      LeastIsUnique(dist, ms[..k], n, ms[k], ms'[k]);
    }
  }

  /** Every pair of active clusters is at least v apart. */
  ghost predicate Apart(dist: Mat, ms: seq<Merge>, n: nat, v: real)
    requires Proper(ms, n)
  {
    forall i, j :: Active(ms, n, i) && Active(ms, n, j) && i < j ==> v <= ClusterDistance(dist, ms, n, i, j)
  }

  lemma ClusterDistanceSymmetric(dist: Mat, ms: seq<Merge>, n: nat, i: nat, j: nat)
    requires Symmetric(n, dist) && Proper(ms, n) && i < n + |ms| && j < n + |ms|
    ensures ClusterDistance(dist, ms, n, i, j) == ClusterDistance(dist, ms, n, j, i)
  {
    LeavesDistinct(ms, n, i);
    LeavesDistinct(ms, n, j);
    AverageSymmetric(dist, n, LeafTable(ms, n)[i], LeafTable(ms, n)[j]);
  }

  lemma WeightedBetween(x: real, sa: int, y: real, sb: int, v: real)
    requires sa > 0 && sb > 0
    ensures x >= v && y >= v ==> Weighted(x, sa, y, sb) >= v
    ensures x < v && y < v ==> Weighted(x, sa, y, sb) < v
  {
    var a, b := sa as real, sb as real;
    assert (sa + sb) as real == a + b;
    var z := (x * a + y * b) / (a + b);
    assert z * (a + b) == x * a + y * b;
    assert (z - v) * (a + b) == (x - v) * a + (y - v) * b;
    if x >= v && y >= v {
      assert (x - v) * a >= 0.0 && (y - v) * b >= 0.0;
      FactorSign(z - v, a + b);
    } else if x < v && y < v {
      NegativeProduct(x - v, a);
      NegativeProduct(y - v, b);
      assert (z - v) * (a + b) < 0.0;
      FactorSign(z - v, a + b);
    }
  }

  lemma NegativeProduct(u: real, w: real)
    requires u < 0.0 && w > 0.0
    ensures u * w < 0.0
  {
  }

  lemma FactorSign(u: real, w: real)
    requires w > 0.0
    ensures u * w >= 0.0 <==> u >= 0.0
  {
  }

  /** The distance of a new cluster is the size-weighted mean of its parts' distances. */
  lemma NewClusterDistance(dist: Mat, ms: seq<Merge>, n: nat, m: Merge, i: nat)
    requires Proper(ms, n) && Proper(ms + [m], n) && i < n + |ms|
    requires 0 <= m.a < n + |ms| && 0 <= m.b < n + |ms|
    ensures ClusterDistance(dist, ms + [m], n, n + |ms|, i) ==
            Weighted(ClusterDistance(dist, ms, n, m.a, i), |LeafTable(ms, n)[m.a]|,
                     ClusterDistance(dist, ms, n, m.b, i), |LeafTable(ms, n)[m.b]|)
  {
    assert (ms + [m])[..|ms|] == ms;
    var t := LeafTable(ms, n);
    AverageOfUnion(dist, t[m.a], t[m.b], t[i]);
  }

  /** A new cluster is no closer to i than the nearer of its parts, and no farther than the farther. */
  lemma NewClusterBetween(dist: Mat, ms: seq<Merge>, n: nat, m: Merge, i: nat, v: real)
    requires Proper(ms, n) && Proper(ms + [m], n) && i < n + |ms|
    requires 0 <= m.a < n + |ms| && 0 <= m.b < n + |ms|
    ensures var x, y := ClusterDistance(dist, ms, n, m.a, i), ClusterDistance(dist, ms, n, m.b, i);
            && (x >= v && y >= v ==> ClusterDistance(dist, ms + [m], n, n + |ms|, i) >= v)
            && (x < v && y < v ==> ClusterDistance(dist, ms + [m], n, n + |ms|, i) < v)
  {
    var t := LeafTable(ms, n);
    NewClusterDistance(dist, ms, n, m, i);
    WeightedBetween(ClusterDistance(dist, ms, n, m.a, i), |t[m.a]|, ClusterDistance(dist, ms, n, m.b, i), |t[m.b]|, v);
  }

  lemma NewClusterApart(dist: Mat, ms: seq<Merge>, n: nat, i: nat, v: real)
    requires Symmetric(n, dist) && Proper(ms, n) && ms != []
    requires Apart(dist, ms[..|ms| - 1], n, v)
    requires Active(ms, n, i) && i != n + |ms| - 1
    ensures ClusterDistance(dist, ms, n, i, n + |ms| - 1) >= v
  {
    hide ClusterDistance;
    var m, rest := ms[|ms| - 1], ms[..|ms| - 1];
    ActiveAfter(ms, n, i);
    ClusterDistanceSymmetric(dist, ms, n, i, n + |rest|);
    ClusterDistanceSymmetric(dist, rest, n, m.a, i);
    ClusterDistanceSymmetric(dist, rest, n, m.b, i);
    assert ClusterDistance(dist, rest, n, m.a, i) >= v;
    assert ClusterDistance(dist, rest, n, m.b, i) >= v;
    assert ms == rest + [m];
    NewClusterBetween(dist, rest, n, m, i, v);
  }

  /** Every pair of active clusters is closer than v. */
  ghost predicate Within(dist: Mat, ms: seq<Merge>, n: nat, v: real)
    requires Proper(ms, n)
  {
    forall i, j :: Active(ms, n, i) && Active(ms, n, j) && i < j ==> ClusterDistance(dist, ms, n, i, j) < v
  }

  lemma NewClusterWithin(dist: Mat, ms: seq<Merge>, n: nat, i: nat, v: real)
    requires Symmetric(n, dist) && Proper(ms, n) && ms != []
    requires Within(dist, ms[..|ms| - 1], n, v)
    requires Active(ms, n, i) && i != n + |ms| - 1
    ensures ClusterDistance(dist, ms, n, i, n + |ms| - 1) < v
  {
    hide ClusterDistance;
    var m, rest := ms[|ms| - 1], ms[..|ms| - 1];
    ActiveAfter(ms, n, i);
    ClusterDistanceSymmetric(dist, ms, n, i, n + |rest|);
    ClusterDistanceSymmetric(dist, rest, n, m.a, i);
    ClusterDistanceSymmetric(dist, rest, n, m.b, i);
    assert ClusterDistance(dist, rest, n, m.a, i) < v;
    assert ClusterDistance(dist, rest, n, m.b, i) < v;
    assert ms == rest + [m];
    NewClusterBetween(dist, rest, n, m, i, v);
  }

  /** Joining never moves clusters further apart than they were. */
  lemma JoiningKeepsWithin(dist: Mat, ms: seq<Merge>, n: nat, v: real)
    requires Symmetric(n, dist) && Proper(ms, n) && ms != []
    requires Within(dist, ms[..|ms| - 1], n, v)
    ensures Within(dist, ms, n, v)
  {
    var rest := ms[..|ms| - 1];
    forall i, j | Active(ms, n, i) && Active(ms, n, j) && i < j
      ensures ClusterDistance(dist, ms, n, i, j) < v
    {
      ActiveAfter(ms, n, i);
      ActiveAfter(ms, n, j);
      if j == n + |rest| {
        NewClusterWithin(dist, ms, n, i, v);
      } else {
        assert ClusterDistance(dist, ms, n, i, j) == ClusterDistance(dist, rest, n, i, j);
      }
    }
  }

  lemma PointDistance(dist: Mat, n: nat, i: nat, j: nat)
    requires i < n && j < n
    ensures ClusterDistance(dist, [], n, i, j) == dist(i, j)
  {
    assert RowTotal(dist, i, [j]) == dist(i, j) + RowTotal(dist, i, []);
    assert PairSum(dist, [i], [j]) == RowTotal(dist, i, [j]) + PairSum(dist, [], [j]);
    assert PerPair(dist(i, j), 1, 1) == dist(i, j);
  }

  /** Distances below v keep every cluster distance below v. */
  lemma {:induction false} ClustersWithin(dist: Mat, ms: seq<Merge>, n: nat, v: real)
    requires Symmetric(n, dist) && Proper(ms, n)
    requires forall i, j :: 0 <= i < j < n ==> dist(i, j) < v
    ensures Within(dist, ms, n, v)
  {
    if ms == [] {
      forall i, j | Active(ms, n, i) && Active(ms, n, j) && i < j
        ensures ClusterDistance(dist, ms, n, i, j) < v
      {
        PointDistance(dist, n, i, j);
      }
    } else {
      ClustersWithin(dist, ms[..|ms| - 1], n, v);
      JoiningKeepsWithin(dist, ms, n, v);
    }
  }

  /** Fewer than n - 1 merges leave two clusters. */
  lemma TwoLeft(ms: seq<Merge>, n: nat) returns (i: int, j: int)
    requires Proper(ms, n) && |ms| < n - 1
    ensures Active(ms, n, i) && Active(ms, n, j) && i < j
  {
    ActiveCount(ms, n);
    var s := ActiveSet(ms, n);
    i :| i in s;
    var rest := s - {i};
    assert |rest| == |s| - 1;
    j :| j in rest;
    if j < i { i, j := j, i; }
  }

  /** Joining never brings clusters closer. */
  lemma JoiningKeepsApart(dist: Mat, ms: seq<Merge>, n: nat, v: real)
    requires Symmetric(n, dist) && Proper(ms, n) && ms != []
    requires Apart(dist, ms[..|ms| - 1], n, v)
    ensures Apart(dist, ms, n, v)
  {
    var rest := ms[..|ms| - 1];
    forall i, j | Active(ms, n, i) && Active(ms, n, j) && i < j
      ensures v <= ClusterDistance(dist, ms, n, i, j)
    {
      ActiveAfter(ms, n, i);
      ActiveAfter(ms, n, j);
      if j == n + |rest| {
        NewClusterApart(dist, ms, n, i, v);
      } else {
        assert ClusterDistance(dist, ms, n, i, j) == ClusterDistance(dist, rest, n, i, j);
      }
    }
  }

  /** After every merge the clusters left are at least the merge's distance apart. */
  lemma ApartAfterMerge(dist: Mat, n: nat, ms: seq<Merge>)
    requires Symmetric(n, dist) && AverageLinkage(dist, n, ms) && ms != []
    ensures Apart(dist, ms, n, ms[|ms| - 1].dist)
  {
    JoiningKeepsApart(dist, ms, n, ms[|ms| - 1].dist);
  }

  /** Merge distances never decrease. */
  lemma {:induction false} MergeDistancesAscend(dist: Mat, n: nat, ms: seq<Merge>, s: nat, t: nat)
    requires Symmetric(n, dist) && AverageLinkage(dist, n, ms) && s <= t < |ms|
    ensures ms[s].dist <= ms[t].dist
  {
    hide JoinsLeast;
    if s < t {
      MergeDistancesAscend(dist, n, ms, s, t - 1);
      AverageLinkagePrefix(dist, n, ms, t);
      ApartAfterMerge(dist, n, ms[..t]);
      assert ms[..t][t - 1] == ms[t - 1];
    }
  }

  /** Clusters the first s merges leave are at least the next merge's distance apart. */
  lemma ApartBeforeMerge(dist: Mat, n: nat, ms: seq<Merge>, s: nat)
    requires AverageLinkage(dist, n, ms) && s < |ms|
    ensures AverageLinkage(dist, n, ms[..s])
    ensures Apart(dist, ms[..s], n, ms[s].dist)
  {
    AverageLinkagePrefix(dist, n, ms, s);
  }

  /** The distances between all clusters of the merges, as a matrix. */
  ghost function Distances(dist: Mat, n: nat, ms: seq<Merge>): Mat
    requires Proper(ms, n)
  {
    (i, j) => if 0 <= i < n + |ms| && 0 <= j < n + |ms| then ClusterDistance(dist, ms, n, i, j) else 0.0
  }

  /** How the distance matrix grows by one join. */
  lemma DistancesAfterJoin(dist: Mat, n: nat, ms: seq<Merge>, m: Merge, newId: int, w: Mat, w': Mat)
    requires Symmetric(n, dist) && Proper(ms, n) && Proper(ms + [m], n) && newId == n + |ms|
    requires 0 <= m.a < n + |ms| && 0 <= m.b < n + |ms|
    requires w == Distances(dist, n, ms) && w' == Distances(dist, n, ms + [m])
    ensures forall i, j :: 0 <= i < newId && 0 <= j < newId ==> w'(i, j) == w(i, j)
    ensures forall i :: 0 <= i < newId ==> w'(i, newId) == w'(newId, i)
    ensures forall i :: 0 <= i < newId ==>
              w'(newId, i) == Weighted(w(m.a, i), |LeafTable(ms, n)[m.a]|, w(m.b, i), |LeafTable(ms, n)[m.b]|)
  {
    hide Distances, Weighted;
    forall i, j | 0 <= i < newId && 0 <= j < newId
      ensures w'(i, j) == w(i, j)
    {
      OldDistance(dist, n, ms, m, i, j);
    }
    forall i | 0 <= i < newId
      ensures w'(i, newId) == w'(newId, i)
      ensures w'(newId, i) == Weighted(w(m.a, i), |LeafTable(ms, n)[m.a]|, w(m.b, i), |LeafTable(ms, n)[m.b]|)
    {
      NewDistance(dist, n, ms, m, i);
    }
  }

  lemma OldDistance(dist: Mat, n: nat, ms: seq<Merge>, m: Merge, i: nat, j: nat)
    requires Proper(ms, n) && Proper(ms + [m], n) && i < n + |ms| && j < n + |ms|
    ensures Distances(dist, n, ms + [m])(i, j) == Distances(dist, n, ms)(i, j)
  {
    assert (ms + [m])[..|ms|] == ms;
  }

  lemma NewDistance(dist: Mat, n: nat, ms: seq<Merge>, m: Merge, i: nat)
    requires Symmetric(n, dist) && Proper(ms, n) && Proper(ms + [m], n) && i < n + |ms|
    requires 0 <= m.a < n + |ms| && 0 <= m.b < n + |ms|
    ensures var w, w' := Distances(dist, n, ms), Distances(dist, n, ms + [m]);
            && w'(i, n + |ms|) == w'(n + |ms|, i)
            && w'(n + |ms|, i) == Weighted(w(m.a, i), |LeafTable(ms, n)[m.a]|, w(m.b, i), |LeafTable(ms, n)[m.b]|)
  {
    hide ClusterDistance, LeafTable, Weighted;
    ClusterDistanceSymmetric(dist, ms + [m], n, i, n + |ms|);
    NewClusterDistance(dist, ms, n, m, i);
  }

  // ----- Equal distances give equal linkage

  lemma {:induction false} RowTotalExt(dist: Mat, dist': Mat, n: nat, x: int, ys: seq<int>)
    requires Agree(n, dist, dist') && 0 <= x < n && Points(ys, n)
    ensures RowTotal(dist, x, ys) == RowTotal(dist', x, ys)
  {
    if ys != [] { RowTotalExt(dist, dist', n, x, ys[1..]); }
  }

  lemma {:induction false} PairSumExt(dist: Mat, dist': Mat, n: nat, xs: seq<int>, ys: seq<int>)
    requires Agree(n, dist, dist') && Points(xs, n) && Points(ys, n)
    ensures PairSum(dist, xs, ys) == PairSum(dist', xs, ys)
  {
    if xs != [] {
      RowTotalExt(dist, dist', n, xs[0], ys);
      PairSumExt(dist, dist', n, xs[1..], ys);
    }
  }

  lemma ClusterDistanceExt(dist: Mat, dist': Mat, ms: seq<Merge>, n: nat, i: nat, j: nat)
    requires Agree(n, dist, dist') && Proper(ms, n) && i < n + |ms| && j < n + |ms|
    ensures ClusterDistance(dist, ms, n, i, j) == ClusterDistance(dist', ms, n, i, j)
  {
    LeavesDistinct(ms, n, i);
    LeavesDistinct(ms, n, j);
    PairSumExt(dist, dist', n, LeafTable(ms, n)[i], LeafTable(ms, n)[j]);
  }

  lemma JoinsLeastExt(dist: Mat, dist': Mat, ms: seq<Merge>, n: nat, m: Merge)
    requires Agree(n, dist, dist') && Proper(ms, n) && JoinsLeast(dist, ms, n, m)
    ensures JoinsLeast(dist', ms, n, m)
  {
    forall i, j | Active(ms, n, i) && Active(ms, n, j) && i < j
      ensures Before(m.dist, m.a, m.b, ClusterDistance(dist', ms, n, i, j), i, j)
    {
      ClusterDistanceExt(dist, dist', ms, n, i, j);
    }
    ClusterDistanceExt(dist, dist', ms, n, m.a, m.b);
  }

  lemma {:induction false} LinkageExt(dist: Mat, dist': Mat, n: nat, ms: seq<Merge>)
    requires Agree(n, dist, dist') && AverageLinkage(dist, n, ms)
    ensures AverageLinkage(dist', n, ms)
  {
    if ms != [] {
      LinkageExt(dist, dist', n, ms[..|ms| - 1]);
      JoinsLeastExt(dist, dist', ms[..|ms| - 1], n, ms[|ms| - 1]);
    }
  }
}
