/** mergeSmallCohorts, closestGroup and agglomerate of internal/cohort/agglomerate.go. */
module SmallCohorts {
  import opened RealSums
  import opened Matrices
  import opened Grids
  import opened ClassicalMds
  import opened Linkage
  import opened Dendrogram
  import opened CohortCut
  import opened SetFacts
  import opened Arith

  // ----- Counting and folding groups

  ghost function CountOf(s: seq<int>, g: int): nat {
    if s == [] then 0 else CountOf(s[..|s| - 1], g) + (if s[|s| - 1] == g then 1 else 0)
  }

  /** s with every a replaced by b. */
  ghost function Fold(s: seq<int>, a: int, b: int): (r: seq<int>)
    ensures |r| == |s|
  {
    seq(|s|, i requires 0 <= i < |s| => if s[i] == a then b else s[i])
  }

  lemma {:induction false} FoldCounts(s: seq<int>, a: int, b: int, g: int)
    requires a != b
    ensures CountOf(Fold(s, a, b), g) ==
            if g == a then 0 else if g == b then CountOf(s, a) + CountOf(s, b) else CountOf(s, g)
  {
    if s != [] {
      var k := |s| - 1;
      FoldCounts(s[..k], a, b, g);
      assert Fold(s, a, b)[..k] == Fold(s[..k], a, b);
    }
  }

  lemma {:induction false} CountPositive(s: seq<int>, g: int)
    ensures CountOf(s, g) > 0 <==> g in s
  {
    if s != [] {
      CountPositive(s[..|s| - 1], g);
      assert s == s[..|s| - 1] + [s[|s| - 1]];
    }
  }

  /** Two sequences that group positions alike count alike. */
  lemma {:induction false} CountsAlike(s: seq<int>, t: seq<int>, g: int, h: int)
    requires |s| == |t| && forall i :: 0 <= i < |s| ==> (s[i] == g <==> t[i] == h)
    ensures CountOf(s, g) == CountOf(t, h)
  {
    if s != [] { CountsAlike(s[..|s| - 1], t[..|t| - 1], g, h); }
  }

  /** counts holds the size of every group of s. */
  ghost predicate Counts(counts: map<int, int>, s: seq<int>) {
    && (forall g :: g in counts <==> g in s)
    && (forall g :: g in counts ==> counts[g] == CountOf(s, g))
  }

  /** Positions together in s stay together in t. */
  ghost predicate Coarsens(s: seq<int>, t: seq<int>) {
    |s| == |t| && forall i, j :: 0 <= i < |s| && 0 <= j < |s| && s[i] == s[j] ==> t[i] == t[j]
  }

  ghost predicate NonNegative(s: seq<int>) {
    forall i :: 0 <= i < |s| ==> s[i] >= 0
  }

  method Tally(groups: array<int>) returns (counts: map<int, int>)
    ensures Counts(counts, groups[..])
  {
    counts := map[];
    for i := 0 to groups.Length
      invariant Counts(counts, groups[..i])
    {
      var g := groups[i];
      ghost var was, now := groups[..i], groups[..i + 1];
      assert now == was + [g] && now[..i] == was;
      CountPositive(was, g);
      counts := counts[g := (if g in counts then counts[g] else 0) + 1];
    }
    assert groups[..groups.Length] == groups[..];
  }

  /** A smallest group among those below minSize, or -1; ties fall to the order of the map. */
  method Smallest(counts: map<int, int>, minSize: int) returns (smallest: int)
    requires forall g :: g in counts ==> g >= 0
    ensures smallest < 0 ==> forall g :: g in counts ==> counts[g] >= minSize
    ensures smallest >= 0 ==> smallest in counts && counts[smallest] < minSize
    ensures smallest >= 0 ==> forall g :: g in counts ==> counts[smallest] <= counts[g]
  {
    smallest := -1;
    var smallestSize := minSize;
    var todo := counts.Keys;
    while todo != {}
      invariant todo <= counts.Keys && smallestSize <= minSize
      invariant smallest < 0 ==> smallestSize == minSize
      invariant smallest >= 0 ==> smallest in counts && counts[smallest] == smallestSize < minSize
      invariant forall g :: g in counts && g !in todo ==> smallestSize <= counts[g]
    {
      ghost var some := Member(todo);
      var g :| g in todo;
      todo := todo - {g};
      if counts[g] < smallestSize {
        smallest, smallestSize := g, counts[g];
      }
    }
  }

  // ----- The nearest group

  ghost function Between(sqrt: real -> real, profiles: seq<ClusterProfile>, i: int, j: int): real
    requires 0 <= i < |profiles| && 0 <= j < |profiles|
  {
    Distance(sqrt, profiles[i].features, profiles[j].features)
  }

  /** Every distance is below the limit. */
  ghost predicate AllBelow(sqrt: real -> real, profiles: seq<ClusterProfile>) {
    forall i, j :: 0 <= i < |profiles| && 0 <= j < |profiles| ==> Between(sqrt, profiles, i, j) < MAX_FLOAT64
  }

  /** target holds a point nearest to the small group among all points outside it; a negative target
      means every outside point is at the limit. */
  ghost predicate Nearest(sqrt: real -> real, profiles: seq<ClusterProfile>, s: seq<int>, small: int, target: int)
    requires |s| == |profiles|
  {
    if target < 0 then
      forall i, j :: 0 <= i < |s| && 0 <= j < |s| && s[i] == small && s[j] != small ==>
        Between(sqrt, profiles, i, j) >= MAX_FLOAT64
    else
      exists i, j :: 0 <= i < |s| && 0 <= j < |s| && s[i] == small && s[j] == target && target != small
        && Between(sqrt, profiles, i, j) < MAX_FLOAT64
        && forall i', j' :: 0 <= i' < |s| && 0 <= j' < |s| && s[i'] == small && s[j'] != small ==>
             Between(sqrt, profiles, i, j) <= Between(sqrt, profiles, i', j')
  }

  /** bestDist is the least distance seen, reached by group best, or the limit when none was below it. */
  ghost predicate BestSeen(sqrt: real -> real, profiles: seq<ClusterProfile>, s: seq<int>, small: int,
                           best: int, bestDist: real)
    requires |s| == |profiles|
  {
    && (best < 0 ==> bestDist == MAX_FLOAT64)
    && (best >= 0 ==> bestDist < MAX_FLOAT64 && best != small)
    && (best >= 0 ==> exists i, j :: 0 <= i < |s| && 0 <= j < |s| && s[i] == small && s[j] == best
                        && Between(sqrt, profiles, i, j) == bestDist)
  }

  method ClosestGroup(sqrt: real -> real, profiles: seq<ClusterProfile>, groups: seq<int>, small: int)
    returns (target: int)
    requires |groups| == |profiles| && NonNegative(groups)
    ensures Nearest(sqrt, profiles, groups, small, target)
  {
    target := -1;
    var bestDist := MAX_FLOAT64;
    for i := 0 to |groups|
      invariant BestSeen(sqrt, profiles, groups, small, target, bestDist)
      invariant forall i', j' :: 0 <= i' < i && 0 <= j' < |groups| && groups[i'] == small && groups[j'] != small ==>
                  bestDist <= Between(sqrt, profiles, i', j')
    {
      if groups[i] != small {
        continue;
      }
      for j := 0 to |groups|
        invariant BestSeen(sqrt, profiles, groups, small, target, bestDist)
        invariant forall i', j' :: 0 <= i' < i && 0 <= j' < |groups| && groups[i'] == small && groups[j'] != small ==>
                    bestDist <= Between(sqrt, profiles, i', j')
        invariant forall j' :: 0 <= j' < j && groups[j'] != small ==> bestDist <= Between(sqrt, profiles, i, j')
      {
        if groups[j] == small {
          continue;
        }
        var d := Euclidean(sqrt, profiles[i].features, profiles[j].features);
        if d < bestDist {
          bestDist, target := d, groups[j];
          assert Between(sqrt, profiles, i, j) == bestDist;
        }
      }
    }
  }

  // ----- Folding until no group is small

  ghost predicate OneGroup(s: seq<int>) {
    forall i, j :: 0 <= i < |s| && 0 <= j < |s| ==> s[i] == s[j]
  }

  /** The group is a smallest one, and below the minimum size. */
  ghost predicate SmallestBelow(s: seq<int>, small: int, minSize: int) {
    small in s && CountOf(s, small) < minSize && forall g :: g in s ==> CountOf(s, small) <= CountOf(s, g)
  }

  /** Some smallest group is below the minimum size and has every point outside it at the limit. */
  ghost predicate Isolated(sqrt: real -> real, profiles: seq<ClusterProfile>, s: seq<int>, minSize: int)
    requires |s| == |profiles|
  {
    exists small :: SmallestBelow(s, small, minSize) &&
      forall i, j :: 0 <= i < |s| && 0 <= j < |s| && s[i] == small && s[j] != small ==>
        Between(sqrt, profiles, i, j) >= MAX_FLOAT64
  }

  /** Nothing is left to fold. */
  ghost predicate Settled(sqrt: real -> real, profiles: seq<ClusterProfile>, s: seq<int>, minSize: int)
    requires |s| == |profiles|
  {
    (forall g :: g in s ==> CountOf(s, g) >= minSize) || OneGroup(s) || Isolated(sqrt, profiles, s, minSize)
  }

  /** One of several groups, a smallest and below the minimum size, is folded into the group of a nearest point. */
  ghost predicate FoldStep(sqrt: real -> real, profiles: seq<ClusterProfile>, minSize: int, s: seq<int>, t: seq<int>)
    requires |s| == |profiles|
  {
    exists small, target :: SmallestBelow(s, small, minSize) && !OneGroup(s) && target >= 0
                            && Nearest(sqrt, profiles, s, small, target) && t == Fold(s, small, target)
  }

  /** The groupings from s0 on, each a fold of the one before. */
  ghost predicate FoldTrail(sqrt: real -> real, profiles: seq<ClusterProfile>, minSize: int, s0: seq<int>,
                            trail: seq<seq<int>>)
  {
    && |trail| > 0 && trail[0] == s0 && (forall k :: 0 <= k < |trail| ==> |trail[k]| == |profiles|)
    && forall k :: 0 <= k < |trail| - 1 ==> FoldStep(sqrt, profiles, minSize, trail[k], trail[k + 1])
  }

  /** Writes target over every small entry. */
  method FoldGroup(groups: array<int>, small: int, target: int)
    modifies groups
    ensures groups[..] == Fold(old(groups[..]), small, target)
  {
    for i := 0 to groups.Length
      invariant forall k :: 0 <= k < groups.Length ==>
                  groups[k] == if k < i && old(groups[k]) == small then target else old(groups[k])
    {
      if groups[i] == small {
        groups[i] := target;
      }
    }
  }

  lemma CountsAfterFold(counts: map<int, int>, s: seq<int>, a: int, b: int)
    requires Counts(counts, s) && a in counts && b in counts && a != b
    ensures Counts(counts[b := counts[b] + counts[a]] - {a}, Fold(s, a, b))
  {
    var t, counts' := Fold(s, a, b), counts[b := counts[b] + counts[a]] - {a};
    forall g
      ensures g in counts' <==> g in t
      ensures g in counts' ==> counts'[g] == CountOf(t, g)
    {
      FoldCounts(s, a, b, g);
      CountPositive(t, g);
      CountPositive(s, g);
      CountPositive(s, b);
    }
  }

  lemma SingleKey(counts: map<int, int>, s: seq<int>)
    requires Counts(counts, s) && |counts| <= 1
    ensures OneGroup(s)
  {
    forall i, j | 0 <= i < |s| && 0 <= j < |s|
      ensures s[i] == s[j]
    {
      if s[i] != s[j] {
        assert {s[i], s[j]} <= counts.Keys;
        assert |{s[i], s[j]}| == 2;
        SubsetSize({s[i], s[j]}, counts.Keys);
      }
    }
  }

  lemma SeveralKeys(counts: map<int, int>, s: seq<int>)
    requires Counts(counts, s) && |counts| > 1
    ensures !OneGroup(s)
  {
    if OneGroup(s) {
      assert forall g :: g in counts ==> g == s[0];
      assert counts.Keys <= {s[0]};
      SubsetSize(counts.Keys, {s[0]});
    }
  }

  lemma NearestIs(sqrt: real -> real, profiles: seq<ClusterProfile>, s: seq<int>, small: int, target: int)
    requires |s| == |profiles| && Nearest(sqrt, profiles, s, small, target)
    ensures target >= 0 ==> target in s && target != small
  {
  }

  lemma FoldCoarsens(s0: seq<int>, s: seq<int>, a: int, b: int)
    requires Coarsens(s0, s)
    ensures Coarsens(s0, Fold(s, a, b))
  {
  }

  lemma FoldMembers(s: seq<int>, a: int, b: int)
    requires b in s && NonNegative(s)
    ensures NonNegative(Fold(s, a, b))
  {
  }

  lemma SmallestIs(counts: map<int, int>, s: seq<int>, small: int, minSize: int)
    requires Counts(counts, s) && small in counts && counts[small] < minSize
    requires forall g :: g in counts ==> counts[small] <= counts[g]
    ensures SmallestBelow(s, small, minSize)
  {
  }

  lemma NoneSmall(sqrt: real -> real, profiles: seq<ClusterProfile>, counts: map<int, int>, s: seq<int>, minSize: int)
    requires |s| == |profiles| && Counts(counts, s)
    requires |counts| <= 1 || forall g :: g in counts ==> counts[g] >= minSize
    ensures Settled(sqrt, profiles, s, minSize)
  {
    if |counts| <= 1 { SingleKey(counts, s); }
  }

  lemma OutOfReach(sqrt: real -> real, profiles: seq<ClusterProfile>, s: seq<int>, small: int, target: int,
                   minSize: int)
    requires |s| == |profiles| && SmallestBelow(s, small, minSize)
    requires target < 0 && Nearest(sqrt, profiles, s, small, target)
    ensures Settled(sqrt, profiles, s, minSize)
  {
  }

  lemma TrailGrows(sqrt: real -> real, profiles: seq<ClusterProfile>, minSize: int, s0: seq<int>, trail: seq<seq<int>>,
                   small: int, target: int)
    requires FoldTrail(sqrt, profiles, minSize, s0, trail)
    requires var s := trail[|trail| - 1];
             && SmallestBelow(s, small, minSize) && !OneGroup(s) && target >= 0
             && Nearest(sqrt, profiles, s, small, target)
    ensures FoldTrail(sqrt, profiles, minSize, s0, trail + [Fold(trail[|trail| - 1], small, target)])
  {
    hide SmallestBelow, Nearest, OneGroup;
    var s := trail[|trail| - 1];
    assert FoldStep(sqrt, profiles, minSize, s, Fold(s, small, target));
  }

  /** Folds small groups into their nearest neighbours, in place, until nothing is left to fold. */
  method FoldSmall(sqrt: real -> real, groups: array<int>, profiles: seq<ClusterProfile>, minSize: int)
    returns (ghost trail: seq<seq<int>>)
    requires groups.Length == |profiles| && NonNegative(groups[..])
    modifies groups
    ensures FoldTrail(sqrt, profiles, minSize, old(groups[..]), trail) && trail[|trail| - 1] == groups[..]
    ensures Coarsens(old(groups[..]), groups[..])
    ensures Settled(sqrt, profiles, groups[..], minSize)
  {
    hide Nearest, SmallestBelow, Settled, FoldStep, Coarsens, OneGroup;
    ghost var s0 := groups[..];
    trail := [s0];
    CoarsensItself(s0);
    var counts := Tally(groups);
    while true
      invariant FoldTrail(sqrt, profiles, minSize, s0, trail) && trail[|trail| - 1] == groups[..]
      invariant Coarsens(s0, groups[..]) && Counts(counts, groups[..])
      invariant NonNegative(groups[..])
      decreases |counts|
    {
      ghost var s := groups[..];
      var smallest := Smallest(counts, minSize);
      if smallest < 0 || |counts| <= 1 {
        NoneSmall(sqrt, profiles, counts, s, minSize);
        break;
      }
      SmallestIs(counts, s, smallest, minSize);
      SeveralKeys(counts, s);
      var target := ClosestGroup(sqrt, profiles, groups[..], smallest);
      if target < 0 {
        OutOfReach(sqrt, profiles, s, smallest, target, minSize);
        break;
      }
      NearestIs(sqrt, profiles, s, smallest, target);
      TrailGrows(sqrt, profiles, minSize, s0, trail, smallest, target);
      FoldGroup(groups, smallest, target);
      trail := trail + [groups[..]];
      CountsAfterFold(counts, s, smallest, target);
      FoldCoarsens(s0, s, smallest, target);
      FoldMembers(s, smallest, target);
      counts := counts[target := counts[target] + counts[smallest]] - {smallest};
    }
  }

  lemma CoarsensItself(s: seq<int>)
    ensures Coarsens(s, s)
  {
  }

  lemma RenumberSettles(sqrt: real -> real, profiles: seq<ClusterProfile>, s0: seq<int>, s: seq<int>, out: seq<int>,
                        count: nat, minSize: int)
    requires |s| == |profiles| && Coarsens(s0, s) && FirstSeen(s, out, count) && Settled(sqrt, profiles, s, minSize)
    ensures Coarsens(s0, out) && Settled(sqrt, profiles, out, minSize)
  {
    if forall g :: g in s ==> CountOf(s, g) >= minSize {
      forall h | h in out
        ensures CountOf(out, h) >= minSize
      {
        var i :| 0 <= i < |out| && out[i] == h;
        CountsAlike(s, out, s[i], h);
        assert s[i] in s;
      }
    } else if OneGroup(s) {
      assert OneGroup(out);
    } else {
      var small :| SmallestBelow(s, small, minSize) &&
        forall i, j :: 0 <= i < |s| && 0 <= j < |s| && s[i] == small && s[j] != small ==>
          Between(sqrt, profiles, i, j) >= MAX_FLOAT64;
      var k :| 0 <= k < |s| && s[k] == small;
      CountsAlike(s, out, small, out[k]);
      forall h | h in out
        ensures CountOf(out, out[k]) <= CountOf(out, h)
      {
        var i :| 0 <= i < |out| && out[i] == h;
        CountsAlike(s, out, s[i], h);
        assert s[i] in s;
      }
      assert SmallestBelow(out, out[k], minSize);
    }
  }

  /** Groups with every small one folded away and renumbered; minSize <= 1 changes nothing. */
  method MergeSmallCohorts(sqrt: real -> real, groups: array<int>, profiles: seq<ClusterProfile>, minSize: int)
    returns (out: array<int>, ghost count: nat, ghost trail: seq<seq<int>>)
    requires groups.Length == |profiles| && NonNegative(groups[..])
    modifies groups
    ensures out.Length == |profiles| && Coarsens(old(groups[..]), out[..])
    ensures minSize <= 1 ==> out == groups && out[..] == old(groups[..])
    ensures minSize > 1 ==> fresh(out) && Settled(sqrt, profiles, out[..], minSize)
    ensures minSize > 1 ==> FoldTrail(sqrt, profiles, minSize, old(groups[..]), trail)
                            && FirstSeen(trail[|trail| - 1], out[..], count)
  {
    if minSize <= 1 {
      return groups, 0, [];
    }
    ghost var s0 := groups[..];
    trail := FoldSmall(sqrt, groups, profiles, minSize);
    out, count := Renumber(groups);
    RenumberSettles(sqrt, profiles, s0, groups[..], out[..], count, minSize);
  }

  /** When every distance is below the limit, what is left is one group or only groups of minSize. */
  lemma SettledGroups(sqrt: real -> real, profiles: seq<ClusterProfile>, s: seq<int>, minSize: int)
    requires |s| == |profiles| && Settled(sqrt, profiles, s, minSize)
    requires AllBelow(sqrt, profiles)
    ensures OneGroup(s) || forall g :: g in s ==> CountOf(s, g) >= minSize
  {
    if Isolated(sqrt, profiles, s, minSize) && !OneGroup(s) {
      var small :| SmallestBelow(s, small, minSize) &&
        forall i, j :: 0 <= i < |s| && 0 <= j < |s| && s[i] == small && s[j] != small ==>
          Between(sqrt, profiles, i, j) >= MAX_FLOAT64;
      var i :| 0 <= i < |s| && s[i] == small;
      forall j | 0 <= j < |s|
        ensures s[j] == small
      {
        var d := Between(sqrt, profiles, i, j);
      }
    }
  }

  // ----- The whole clustering

  /** The cut of the average linkage dendrogram of the profiles; with fewer than two merges all
      points are one group, and the dendrogram is complete when distances stay below the limit. */
  ghost predicate CutByLinkage(sqrt: real -> real, profiles: seq<ClusterProfile>, maxK: int,
                               merges: seq<Merge>, k: int, groups: seq<int>) {
    var n := |profiles|;
    && AverageLinkage(ProfileDistances(sqrt, profiles), n, merges) && |merges| <= n - 1
    && (AllBelow(sqrt, profiles) ==> |merges| == n - 1)
    && (|merges| < 2 ==> OneGroup(groups))
    && (|merges| >= 2 ==> BestCut(merges, Max(maxK, 2), n, k) && GroupsOf(groups, merges[..Applied(|merges|, k)], n))
  }

  lemma BelowInGrid(sqrt: real -> real, profiles: seq<ClusterProfile>, dist: array2<real>, n: nat)
    requires n == |profiles| && Square(dist, n) && AllBelow(sqrt, profiles)
    requires Agree(n, Entries(dist), ProfileDistances(sqrt, profiles))
    ensures forall i, j :: 0 <= i < j < n ==> dist[i, j] < MAX_FLOAT64
  {
    forall i, j | 0 <= i < j < n
      ensures dist[i, j] < MAX_FLOAT64
    {
      assert Entries(dist)(i, j) == Between(sqrt, profiles, i, j);
    }
  }

  /** Two or more profiles: their dendrogram, the number of groups, and the cut. */
  method AgglomerateMany(sqrt: real -> real, profiles: seq<ClusterProfile>, limit: int)
    returns (groups: array<int>, ghost merges: seq<Merge>, ghost k: int)
    requires |profiles| >= 2 && limit >= 2
    ensures fresh(groups) && groups.Length == |profiles| && NonNegative(groups[..])
    ensures CutByLinkage(sqrt, profiles, limit, merges, k, groups[..])
  {
    hide AverageLinkage, BestCut;
    var n := |profiles|;
    var dist := PairwiseDistances(sqrt, profiles);
    ProfileDistancesSymmetric(sqrt, profiles);
    var ms := BuildDendrogram(n, dist);
    LinkageExt(Entries(dist), ProfileDistances(sqrt, profiles), n, ms);
    var count := ChooseK(ms, limit, n);
    if |ms| >= 2 {
      ChoiceIsBest(Entries(dist), n, ms, limit, count);
    }
    if AllBelow(sqrt, profiles) {
      BelowInGrid(sqrt, profiles, dist, n);
    }
    groups := CutDendrogram(ms, n, count);
    merges, k := ms, count;
  }

  /** Group ids of the profiles. With two or more, merges is the dendrogram and k the cut. */
  method Agglomerate(sqrt: real -> real, profiles: seq<ClusterProfile>, maxK: int)
    returns (groups: array<int>, ghost merges: seq<Merge>, ghost k: int)
    ensures fresh(groups) && groups.Length == |profiles| && NonNegative(groups[..])
    ensures |profiles| == 1 ==> groups[0] == 0
    ensures |profiles| >= 2 ==> CutByLinkage(sqrt, profiles, maxK, merges, k, groups[..])
  {
    var n := |profiles|;
    merges, k := [], 0;
    if n == 0 {
      groups := new int[0];
    } else if n == 1 {
      groups := new int[1](i => 0);
    } else {
      groups, merges, k := AgglomerateMany(sqrt, profiles, if maxK < 2 then 2 else maxK);
      assert CutByLinkage(sqrt, profiles, maxK, merges, k, groups[..]);
    }
  }

  // ----- Identical profiles

  lemma {:induction false} ZeroRow(dist: Mat, n: nat, x: int, ys: seq<int>)
    requires Points(ys, n) && forall j :: 0 <= j < n ==> dist(x, j) == 0.0
    ensures RowTotal(dist, x, ys) == 0.0
  {
    if ys != [] { ZeroRow(dist, n, x, ys[1..]); }
  }

  lemma {:induction false} ZeroTotal(dist: Mat, n: nat, xs: seq<int>, ys: seq<int>)
    requires Points(xs, n) && Points(ys, n)
    requires forall i, j :: 0 <= i < n && 0 <= j < n ==> dist(i, j) == 0.0
    ensures PairSum(dist, xs, ys) == 0.0
  {
    if xs != [] {
      ZeroRow(dist, n, xs[0], ys);
      ZeroTotal(dist, n, xs[1..], ys);
    }
  }

  /** Identical points are merged at distance zero throughout. */
  lemma ZeroMerges(dist: Mat, n: nat, ms: seq<Merge>, s: nat)
    requires AverageLinkage(dist, n, ms) && s < |ms|
    requires forall i, j :: 0 <= i < n && 0 <= j < n ==> dist(i, j) == 0.0
    ensures ms[s].dist == 0.0
  {
    hide Before, LeafTable, AverageLinkage, ClusterDistance;
    AverageLinkagePrefix(dist, n, ms, s);
    ZeroDistance(dist, n, ms[..s], ms[s].a, ms[s].b);
  }

  lemma ZeroDistance(dist: Mat, n: nat, ms: seq<Merge>, a: int, b: int)
    requires Proper(ms, n) && 0 <= a < n + |ms| && 0 <= b < n + |ms|
    requires forall i, j :: 0 <= i < n && 0 <= j < n ==> dist(i, j) == 0.0
    ensures ClusterDistance(dist, ms, n, a, b) == 0.0
  {
    hide LeafTable;
    LeavesDistinct(ms, n, a);
    LeavesDistinct(ms, n, b);
    ZeroTotal(dist, n, LeafTable(ms, n)[a], LeafTable(ms, n)[b]);
  }

  /** The doc comment of agglomerate says that fewer than two distinct points all land in group 0.
      They do for one or two profiles only: with equal gaps the cut takes the largest count allowed. */
  lemma IdenticalPointsSplit(dist: Mat, n: nat, ms: seq<Merge>, maxK: int, k: int, groups: seq<int>)
    requires n >= 2 && AverageLinkage(dist, n, ms) && |ms| == n - 1
    requires forall i, j :: 0 <= i < n && 0 <= j < n ==> dist(i, j) == 0.0
    requires |ms| >= 2 ==> BestCut(ms, Max(maxK, 2), n, k) && GroupsOf(groups, ms[..Applied(|ms|, k)], n)
    requires |ms| < 2 ==> |groups| == n && OneGroup(groups)
    ensures OneGroup(groups) <==> n == 2
    ensures n > 2 ==> forall g :: g in groups <==> 0 <= g < Min(Max(maxK, 2), n - 1)
  {
    if n > 2 {
      var top := Min(Max(maxK, 2), n - 1);
      ZeroMerges(dist, n, ms, |ms| - k + 1);
      ZeroMerges(dist, n, ms, |ms| - k);
      ZeroMerges(dist, n, ms, |ms| - top + 1);
      ZeroMerges(dist, n, ms, |ms| - top);
      assert Admissible(ms, Max(maxK, 2), n, top);
      assert Gap(ms, top) == 0.0 && Gap(ms, k) == 0.0;
      assert k == top;
      ExactlyK(ms, n, k, groups);
      assert 0 in groups && 1 in groups;
    }
  }
}
