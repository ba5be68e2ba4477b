/** chooseK, cutDendrogram, find and renumber of internal/cohort/agglomerate.go:
    where the dendrogram is cut and which group each point then falls in. */
module CohortCut {
  import opened RealSums
  import opened Matrices
  import opened Linkage
  import opened SetFacts
  import opened Arith

  // ----- Choosing the number of groups

  /** The distance from the last merge a cut into k groups applies to the first it withholds. */
  ghost function Gap(ms: seq<Merge>, k: int): real
    requires 2 <= k <= |ms|
  {
    ms[|ms| - k + 1].dist - ms[|ms| - k].dist
  }

  ghost predicate Admissible(ms: seq<Merge>, maxK: int, n: int, k: int) {
    2 <= k <= Min(maxK, n - 1) && k <= |ms|
  }

  /** k has the largest gap of all admissible counts, and is the largest that has it. */
  ghost predicate BestCut(ms: seq<Merge>, maxK: int, n: int, k: int) {
    && Admissible(ms, maxK, n, k)
    && forall k' :: Admissible(ms, maxK, n, k') ==>
         Gap(ms, k') <= Gap(ms, k) && (k' > k ==> Gap(ms, k') < Gap(ms, k))
  }

  /** The group count at the largest gap; 1 for fewer than two merges, 2 when no gap qualifies. */
  method ChooseK(ms: seq<Merge>, maxK: int, n: int) returns (k: int)
    ensures |ms| < 2 ==> k == 1
    ensures |ms| >= 2 && (exists k' :: Admissible(ms, maxK, n, k') && Gap(ms, k') > -1.0) ==> BestCut(ms, maxK, n, k)
    ensures |ms| >= 2 && (forall k' :: Admissible(ms, maxK, n, k') ==> Gap(ms, k') <= -1.0) ==> k == 2
  {
    if |ms| < 2 {
      return 1;
    }
    var upper := Min(maxK, n - 1);
    if upper < 2 {
      return 2;
    }
    k := 2;
    var bestGap := -1.0;
    for i := 1 to |ms|
      invariant bestGap > -1.0 ==> Admissible(ms, maxK, n, k) && k > |ms| - i + 1 && bestGap == Gap(ms, k)
      invariant bestGap <= -1.0 ==> k == 2 && bestGap == -1.0
      invariant forall k' :: Admissible(ms, maxK, n, k') && k' > |ms| - i + 1 ==>
                  Gap(ms, k') <= bestGap && (k' > k && bestGap > -1.0 ==> Gap(ms, k') < bestGap)
    {
      var candidate := |ms| - i + 1;
      if candidate < 2 || candidate > upper {
        continue;
      }
      var gap := ms[i].dist - ms[i - 1].dist;
      assert gap == Gap(ms, candidate);
      if gap > bestGap {
        bestGap := gap;
        k := candidate;
      }
    }
  }

  /** For the merges the construction returns, the choice is the best cut. */
  lemma ChoiceIsBest(dist: Mat, n: nat, ms: seq<Merge>, maxK: int, k: int)
    requires Symmetric(n, dist) && AverageLinkage(dist, n, ms)
    requires |ms| >= 2 && Min(maxK, n - 1) >= 2
    requires (exists k' :: Admissible(ms, maxK, n, k') && Gap(ms, k') > -1.0) ==> BestCut(ms, maxK, n, k)
    ensures BestCut(ms, maxK, n, k)
  {
    assert Admissible(ms, maxK, n, 2);
    MergeDistancesAscend(dist, n, ms, |ms| - 2, |ms| - 1);
    assert Gap(ms, 2) >= 0.0;
  }

  // ----- Numbering keys by first appearance

  /** out numbers the keys 0, 1, ..., count - 1 in the order they first appear. */
  ghost predicate FirstSeen(keys: seq<int>, out: seq<int>, count: nat) {
    && |out| == |keys|
    && (forall i, j :: 0 <= i < |keys| && 0 <= j < |keys| ==> (out[i] == out[j] <==> keys[i] == keys[j]))
    && (forall i :: 0 <= i < |out| ==> 0 <= out[i] < count)
    && (forall g :: 0 <= g < count ==> g in out)
    && (forall i, g :: 0 <= i < |out| && 0 <= g < out[i] ==> g in out[..i])
  }

  /** remap numbers the keys seen so far; order lists them by number. */
  ghost predicate Numbers(keys: seq<int>, out: seq<int>, remap: map<int, int>, order: seq<int>) {
    && |out| == |keys| && |remap| == |order|
    && (forall i :: 0 <= i < |keys| ==> keys[i] in remap && remap[keys[i]] == out[i])
    && (forall g :: 0 <= g < |order| ==> order[g] in remap && remap[order[g]] == g && g in out)
    && (forall x :: x in remap ==> 0 <= remap[x] < |order| && order[remap[x]] == x && x in keys)
    && (forall i, g :: 0 <= i < |out| && 0 <= g < out[i] ==> g in out[..i])
  }

  /** The number of key, a new one when it was not seen before. */
  method NumberKey(remap: map<int, int>, key: int, ghost keys: seq<int>, ghost out: seq<int>, ghost order: seq<int>)
    returns (id: int, remap': map<int, int>, ghost order': seq<int>)
    requires Numbers(keys, out, remap, order)
    ensures Numbers(keys + [key], out + [id], remap', order')
  {
    if key in remap {
      id, remap', order' := remap[key], remap, order;
    } else {
      id := |remap|;
      remap' := remap[key := id];
      order' := order + [key];
    }
    ghost var out', keys' := out + [id], keys + [key];
    assert out'[|out|] == id && keys'[|keys|] == key;
    forall i, g | 0 <= i < |out'| && 0 <= g < out'[i]
      ensures g in out'[..i]
    {
      assert out'[..|out|] == out;
      if i < |out| {
        assert out'[..i] == out[..i];
      } else if key in remap {
        var j :| 0 <= j < |keys| && keys[j] == key;
        assert g in out[..j];
      }
    }
    forall g | 0 <= g < |order'| ensures g in out' {
      if g < |order| { assert g in out; }
    }
  }

  lemma NumbersAreFirstSeen(keys: seq<int>, out: seq<int>, remap: map<int, int>, order: seq<int>)
    requires Numbers(keys, out, remap, order)
    ensures FirstSeen(keys, out, |order|)
    ensures NoDuplicates(order) && forall x :: x in order <==> x in keys
  {
    forall x ensures x in order <==> x in keys {
      if x in order {
        var g :| 0 <= g < |order| && order[g] == x;
      }
      if x in keys {
        var i :| 0 <= i < |keys| && keys[i] == x;
        assert order[remap[x]] == x;
      }
    }
  }

  /** Compacts ids to 0, ..., count - 1 in order of first appearance. */
  method Renumber(groups: array<int>) returns (out: array<int>, ghost count: nat)
    ensures fresh(out) && FirstSeen(groups[..], out[..], count)
  {
    hide Numbers, FirstSeen;
    out := new int[groups.Length];
    var remap: map<int, int> := map[];
    ghost var order: seq<int> := [];
    NumbersNone(groups[..], out[..]);
    assert groups[..][..0] == groups[..0] && out[..][..0] == out[..0];
    for i := 0 to groups.Length
      invariant Numbers(groups[..i], out[..i], remap, order)
    {
      ghost var seen := out[..i];
      var id;
      id, remap, order := NumberKey(remap, groups[i], groups[..i], out[..i], order);
      out[i] := id;
      assert groups[..i + 1] == groups[..i] + [groups[i]];
      assert out[..i + 1] == seen + [id];
    }
    assert groups[..] == groups[..groups.Length] && out[..] == out[..out.Length];
    NumbersAreFirstSeen(groups[..], out[..], remap, order);
    count := |order|;
  }

  // ----- Following parents

  /** p sends every merged cluster to the cluster it was joined into, and every other to itself. */
  ghost predicate Parents(p: seq<int>, ms: seq<Merge>, n: nat) {
    && |p| >= n + |ms|
    && (forall s :: 0 <= s < |ms| ==> 0 <= ms[s].a < |p| && 0 <= ms[s].b < |p| && p[ms[s].a] == n + s == p[ms[s].b])
    && (forall id :: Active(ms, n, id) ==> p[id] == id)
  }

  lemma {:induction false} JoinedHoldsParts(ms: seq<Merge>, n: nat, s: nat, i: int)
    requires Proper(ms, n) && s < |ms|
    ensures var t := LeafTable(ms, n);
            i in t[n + s] <==> i in t[ms[s].a] || i in t[ms[s].b]
  {
    var rest := ms[..|ms| - 1];
    if s < |rest| {
      JoinedHoldsParts(rest, n, s, i);
    }
  }

  /** A cluster that is not active was consumed by a later one. */
  lemma ConsumedBy(ms: seq<Merge>, n: nat, id: int) returns (s: nat)
    requires WellFormed(ms, n) && 0 <= id < n + |ms| && !Active(ms, n, id)
    ensures s < |ms| && (ms[s].a == id || ms[s].b == id) && id < n + s
  {
    s :| 0 <= s < |ms| && (ms[s].a == id || ms[s].b == id);
  }

  lemma PointHeld(p: seq<int>, ms: seq<Merge>, n: nat, x: nat)
    requires Proper(ms, n) && Parents(p, ms, n) && x < n
    ensures n + |ms| <= |p| && x in LeafTable(ms, n)[x]
  {
    PointsStay(ms, n, x);
  }

  lemma {:induction false} PointsStay(ms: seq<Merge>, n: nat, x: nat)
    requires Proper(ms, n) && x < n
    ensures LeafTable(ms, n)[x] == [x]
  {
    if ms != [] { PointsStay(ms[..|ms| - 1], n, x); }
  }

  /** A cluster whose parent is itself is active. */
  lemma RootIsActive(p: seq<int>, ms: seq<Merge>, n: nat, root: int)
    requires Proper(ms, n) && Parents(p, ms, n) && 0 <= root < n + |ms| && p[root] == root
    ensures Active(ms, n, root)
  {
    hide LeafTable;
    if !Active(ms, n, root) {
      var s := ConsumedBy(ms, n, root);
      assert false;
    }
  }

  /** The parent of a cluster that has one is later, and holds its points. */
  lemma ParentHolds(p: seq<int>, ms: seq<Merge>, n: nat, id: int, x: nat)
    requires Proper(ms, n) && Parents(p, ms, n) && 0 <= id < n + |ms| && p[id] != id
    requires x in LeafTable(ms, n)[id]
    ensures id < p[id] < n + |ms| && x in LeafTable(ms, n)[p[id]]
  {
    hide LeafTable, Proper, Parents, WellFormed;
    var s := JoinedInto(p, ms, n, id);
    JoinedHoldsParts(ms, n, s, x);
  }

  /** The merge that made the parent. */
  lemma JoinedInto(p: seq<int>, ms: seq<Merge>, n: nat, id: int) returns (s: nat)
    requires Proper(ms, n) && Parents(p, ms, n) && 0 <= id < n + |ms| && p[id] != id
    ensures s < |ms| && (ms[s].a == id || ms[s].b == id) && id < n + s == p[id] < n + |ms|
    ensures 0 <= ms[s].a < n + s && 0 <= ms[s].b < n + s
  {
    hide LeafTable, Proper;
    s := ConsumedBy(ms, n, id);
  }

  /** The root above point x: the cluster that holds it. */
  method Find(parent: array<int>, x: nat, ghost ms: seq<Merge>, n: nat) returns (root: int)
    requires Proper(ms, n) && Parents(parent[..], ms, n) && x < n
    ensures root == ClusterOf(ms, n, x)
  {
    hide LeafTable, Parents, Active, Proper;
    root := x;
    PointHeld(parent[..], ms, n, x);
    while parent[root] != root
      invariant 0 <= root < n + |ms| <= parent.Length && x in LeafTable(ms, n)[root]
      decreases n + |ms| - root
    {
      ParentHolds(parent[..], ms, n, root, x);
      root := parent[root];
    }
    RootIsActive(parent[..], ms, n, root);
    LeavesOfCluster(ms, n, root, x);
  }

  // ----- The cut

  /** How many merges a cut into k groups applies. */
  function Applied(count: nat, k: int): nat {
    if count - (k - 1) > 0 then count - (k - 1) else 0
  }

  /** The gap a cut goes by lies between the last merge it makes and the first it withholds, and is never negative in
      a dendrogram. */
  lemma GapAtCut(dist: Mat, n: nat, ms: seq<Merge>, k: int)
    requires Symmetric(n, dist) && AverageLinkage(dist, n, ms) && 2 <= k <= |ms|
    ensures var made := Applied(|ms|, k);
            0 < made < |ms| && Gap(ms, k) == ms[made].dist - ms[made - 1].dist >= 0.0
  {
    MergeDistancesAscend(dist, n, ms, |ms| - k, |ms| - k + 1);
  }

  /** Points the replayed merges joined. */
  ghost function Clusters(ms: seq<Merge>, n: nat): (keys: seq<int>)
    ensures |keys| == n
  {
    seq(n, i => ClusterOf(ms, n, i))
  }

  /** groups numbers the clusters the merges left, all of them, in order of first appearance. */
  ghost predicate GroupsOf(groups: seq<int>, ms: seq<Merge>, n: nat) {
    |ms| <= n && FirstSeen(Clusters(ms, n), groups, n - |ms|)
  }

  /** Points both parts of merge i to the cluster it creates. */
  method ReplayOne(parent: array<int>, merges: seq<Merge>, n: nat, i: nat)
    requires i < |merges| && Proper(merges, n) && n + i < parent.Length && parent[n + i] == n + i
    requires Parents(parent[..], merges[..i], n)
    modifies parent
    ensures Parents(parent[..], merges[..i + 1], n)
    ensures forall id :: n + i < id < parent.Length ==> parent[id] == old(parent[id])
  {
    ghost var was := parent[..];
    var newId := n + i;
    PrefixJoin(merges, n, i);
    assert was[newId] == newId;
    parent[merges[i].a] := newId;
    parent[merges[i].b] := newId;
    assert parent[..] == was[merges[i].a := newId][merges[i].b := newId];
    ParentsAfter(was, parent[..], merges[..i], merges[i], n);
  }

  /** Replays the first stop merges into a parent array. */
  method Replay(merges: seq<Merge>, n: nat, stop: nat) returns (parent: array<int>)
    requires n > 0 && stop <= |merges| <= n - 1 && Proper(merges, n)
    ensures fresh(parent) && Proper(merges[..stop], n) && Parents(parent[..], merges[..stop], n)
  {
    parent := new int[2 * n - 1](i => i);
    for i := 0 to stop
      invariant Parents(parent[..], merges[..i], n)
      invariant forall id :: n + i <= id < parent.Length ==> parent[id] == id
    {
      ReplayOne(parent, merges, n, i);
    }
    ProperPrefix(merges, n, stop);
  }

  lemma PrefixJoin(merges: seq<Merge>, n: nat, i: nat)
    requires i < |merges| && Proper(merges, n)
    ensures merges[..i + 1] == merges[..i] + [merges[i]]
    ensures Active(merges[..i], n, merges[i].a) && Active(merges[..i], n, merges[i].b) && merges[i].a < merges[i].b
  {
    ProperPrefix(merges, n, i + 1);
    assert merges[..i + 1][..i] == merges[..i];
    assert merges[..i + 1][i] == merges[i];
  }

  lemma ParentsAfter(p: seq<int>, p': seq<int>, rest: seq<Merge>, m: Merge, n: nat)
    requires Parents(p, rest, n) && n + |rest| < |p| && p[n + |rest|] == n + |rest|
    requires Active(rest, n, m.a) && Active(rest, n, m.b)
    requires p' == p[m.a := n + |rest|][m.b := n + |rest|]
    ensures Parents(p', rest + [m], n)
  {
    var ms := rest + [m];
    forall s | 0 <= s < |ms|
      ensures 0 <= ms[s].a < |p'| && 0 <= ms[s].b < |p'| && p'[ms[s].a] == n + s == p'[ms[s].b]
    {
      assert s < |rest| ==> ms[s] == rest[s];
    }
    forall id | Active(ms, n, id)
      ensures p'[id] == id
    {
      assert ms[|rest|] == m;
      if id != n + |rest| {
        forall s | 0 <= s < |rest| ensures rest[s].a != id && rest[s].b != id {
          assert ms[s] == rest[s];
        }
        assert Active(rest, n, id);
      }
    }
  }

  /** A duplicate-free listing has as many entries as the set it lists. */
  lemma {:induction false} ListingSize(xs: seq<int>, s: set<int>)
    requires NoDuplicates(xs) && forall x :: x in xs <==> x in s
    ensures |xs| == |s|
  {
    if xs == [] {
      forall x ensures x !in s {
        assert x !in xs;
      }
    } else {
      var k := |xs| - 1;
      forall x ensures x in xs[..k] <==> x in s - {xs[k]} {
        if x in s - {xs[k]} {
          var j :| 0 <= j < |xs| && xs[j] == x;
          assert xs[..k][j] == x;
        }
      }
      ListingSize(xs[..k], s - {xs[k]});
      assert s == (s - {xs[k]}) + {xs[k]};
    }
  }

  /** The clusters of the points are exactly the active ones. */
  lemma ClustersAreActive(ms: seq<Merge>, n: nat)
    requires Proper(ms, n)
    ensures forall x :: x in Clusters(ms, n) <==> x in ActiveSet(ms, n)
  {
    var keys := Clusters(ms, n);
    forall x ensures x in keys <==> x in ActiveSet(ms, n) {
      if x in keys {
        var i :| 0 <= i < n && keys[i] == x;
        ClusterActive(ms, n, i);
      }
      if x in ActiveSet(ms, n) {
        LeavesDistinct(ms, n, x);
        var i := LeafTable(ms, n)[x][0];
        assert i in LeafTable(ms, n)[x];
        LeavesOfCluster(ms, n, x, i);
        assert keys[i] == x;
      }
    }
  }

  lemma NumbersNone(keys: seq<int>, groups: seq<int>)
    ensures Numbers(keys[..0], groups[..0], map[], [])
  {
  }

  /** Group ids of all points after replaying the merges: one per cluster left standing. */
  method GroupRoots(parent: array<int>, ghost ms: seq<Merge>, n: nat) returns (groups: array<int>)
    requires Proper(ms, n) && Parents(parent[..], ms, n) && |ms| <= n
    ensures fresh(groups) && GroupsOf(groups[..], ms, n)
  {
    hide Numbers, Parents, Proper, GroupsOf;
    groups := new int[n];
    var roots: map<int, int> := map[];
    ghost var keys, order: seq<int> := Clusters(ms, n), [];
    NumbersNone(keys, groups[..]);
    assert groups[..][..0] == groups[..0];
    for i := 0 to n
      invariant Numbers(keys[..i], groups[..i], roots, order)
    {
      ghost var seen := groups[..i];
      var r := Find(parent, i, ms, n);
      assert keys[..i + 1] == keys[..i] + [r];
      var gid;
      gid, roots, order := NumberKey(roots, r, keys[..i], seen, order);
      groups[i] := gid;
      assert groups[..i + 1] == seen + [gid];
    }
    assert keys[..n] == keys && groups[..n] == groups[..];
    NumberedGroups(ms, n, groups[..], roots, order);
  }

  lemma NumberedGroups(ms: seq<Merge>, n: nat, groups: seq<int>, roots: map<int, int>, order: seq<int>)
    requires Proper(ms, n) && |ms| <= n && Numbers(Clusters(ms, n), groups, roots, order)
    ensures GroupsOf(groups, ms, n)
  {
    NumbersAreFirstSeen(Clusters(ms, n), groups, roots, order);
    ClustersAreActive(ms, n);
    ListingSize(order, ActiveSet(ms, n));
    ActiveCount(ms, n);
  }

  /** Cuts the dendrogram so that k clusters stand; k <= 1 or no merges puts every point in group 0. */
  method CutDendrogram(merges: seq<Merge>, n: nat, k: int) returns (groups: array<int>)
    requires n > 0 && |merges| <= n - 1 && Proper(merges, n)
    ensures fresh(groups) && groups.Length == n
    ensures k <= 1 || merges == [] ==> forall i :: 0 <= i < n ==> groups[i] == 0
    ensures k > 1 && merges != [] ==> GroupsOf(groups[..], merges[..Applied(|merges|, k)], n)
  {
    if k <= 1 || |merges| == 0 {
      groups := new int[n](i => 0);
      return;
    }
    var stop := Applied(|merges|, k);
    var parent := Replay(merges, n, stop);
    groups := GroupRoots(parent, merges[..stop], n);
  }

  /** Cutting a complete dendrogram at 2 <= k <= n gives exactly k groups. */
  lemma ExactlyK(ms: seq<Merge>, n: nat, k: int, groups: seq<int>)
    requires n > 0 && |ms| == n - 1 && 2 <= k <= n && GroupsOf(groups, ms[..Applied(|ms|, k)], n)
    ensures forall g :: g in groups <==> 0 <= g < k
  {
  }

  /** Two points share a group exactly when the merges applied put them under one cluster. */
  lemma SameGroupMeansJoined(ms: seq<Merge>, n: nat, groups: seq<int>, i: nat, j: nat)
    requires Proper(ms, n) && GroupsOf(groups, ms, n) && i < n && j < n
    ensures groups[i] == groups[j] <==>
            exists id :: 0 <= id < n + |ms| && i in LeafTable(ms, n)[id] && j in LeafTable(ms, n)[id]
  {
    var c, c' := ClusterOf(ms, n, i), ClusterOf(ms, n, j);
    assert Clusters(ms, n)[i] == c && Clusters(ms, n)[j] == c';
    ClusterActive(ms, n, i);
    LeavesOfCluster(ms, n, c, i);
    LeavesOfCluster(ms, n, c, j);
    if id :| 0 <= id < n + |ms| && i in LeafTable(ms, n)[id] && j in LeafTable(ms, n)[id] {
      LeavesStayTogether(ms, n, id, i, j);
    }
  }

  /** Points under one cluster stay under one cluster. */
  lemma {:induction false} LeavesStayTogether(ms: seq<Merge>, n: nat, id: nat, i: nat, j: nat)
    requires Proper(ms, n) && id < n + |ms| && i < n && j < n
    requires i in LeafTable(ms, n)[id] && j in LeafTable(ms, n)[id]
    ensures ClusterOf(ms, n, i) == ClusterOf(ms, n, j)
    decreases n + |ms| - id
  {
    if Active(ms, n, id) {
      LeavesOfCluster(ms, n, id, i);
      LeavesOfCluster(ms, n, id, j);
    } else {
      var s := ConsumedBy(ms, n, id);
      JoinedHoldsParts(ms, n, s, i);
      JoinedHoldsParts(ms, n, s, j);
      LeavesStayTogether(ms, n, n + s, i, j);
    }
  }

  /** Points the cut separates lie in clusters at least the first withheld merge's distance apart. */
  lemma GroupsApart(dist: Mat, n: nat, ms: seq<Merge>, stop: nat, groups: seq<int>, i: nat, j: nat)
    requires Symmetric(n, dist) && AverageLinkage(dist, n, ms) && stop < |ms| && i < n && j < n
    requires GroupsOf(groups, ms[..stop], n) && groups[i] != groups[j]
    ensures AverageLinkage(dist, n, ms[..stop])
    ensures var x, y := ClusterOf(ms[..stop], n, i), ClusterOf(ms[..stop], n, j);
            && Active(ms[..stop], n, x) && Active(ms[..stop], n, y) && x != y
            && ClusterDistance(dist, ms[..stop], n, x, y) >= ms[stop].dist
  {
    ApartBeforeMerge(dist, n, ms, stop);
    var x, y := ClusterOf(ms[..stop], n, i), ClusterOf(ms[..stop], n, j);
    ClusterActive(ms[..stop], n, i);
    ClusterActive(ms[..stop], n, j);
    assert Clusters(ms[..stop], n)[i] == x && Clusters(ms[..stop], n)[j] == y;
    if y < x {
      ClusterDistanceSymmetric(dist, ms[..stop], n, x, y);
    }
  }
}
