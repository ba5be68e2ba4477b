/** buildDendrogram of internal/cohort/agglomerate.go: incremental average-linkage clustering over mutable
    distance tables, one row per active cluster and mirrored, proved to follow the definition whatever order
    the maps are scanned in. */
module Dendrogram {
  import opened RealSums
  import opened Matrices
  import opened Grids
  import opened Linkage
  import opened SetFacts

  /** The largest finite float64, 2^1024 - 2^971: a candidate pair must be strictly below it. */
  const MAX_FLOAT64 := 179769313486231570814527423731704356798070567525844996598917476803157260780028538760589558632766878171540458953514382464234321326889464182768467546703537516986049910576551282076245490090389328944075868508455133942304583236903222948165808559332123348274797826204144723168738177180919299881250404026184124858368.0

  type Table = map<int, map<int, real>>

  // ----- The closest pair

  /** (a, b) is the first of the pairs seen, or none seen is below the limit. */
  ghost predicate Winner(w: Mat, seen: set<(int, int)>, a: int, b: int, best: real) {
    if a < 0 then best == MAX_FLOAT64 && forall p :: p in seen ==> w(p.0, p.1) >= MAX_FLOAT64
    else (a, b) in seen && best == w(a, b) && best < MAX_FLOAT64
         && forall p :: p in seen ==> Before(best, a, b, w(p.0, p.1), p.0, p.1)
  }

  /** What one more pair makes of the winner. */
  lemma OneMoreSeen(w: Mat, seen: set<(int, int)>, a: int, b: int, best: real, i: int, j: int)
    requires Winner(w, seen, a, b, best) && i >= 0
    ensures var v := w(i, j);
            if v < best || (v == best && (i < a || (i == a && j < b))) then Winner(w, seen + {(i, j)}, i, j, v)
            else Winner(w, seen + {(i, j)}, a, b, best)
  {
  }

  /** Considers every entry of row i, in any order. */
  method ScanRow(row: map<int, real>, i: nat, flags: seq<bool>, ghost w: Mat, ghost seen: set<(int, int)>,
                 a0: int, b0: int, best0: real) returns (a: int, b: int, best: real)
    requires forall j :: j in row ==> 0 <= j < |flags| && row[j] == w(i, j)
    requires Winner(w, seen, a0, b0, best0)
    ensures Winner(w, seen + (set j | j in row && j > i && flags[j] :: (i, j)), a, b, best)
  {
    hide Winner;
    a, b, best := a0, b0, best0;
    var todo := row.Keys;
    ghost var all := seen;
    while todo != {}
      invariant todo <= row.Keys
      invariant all == seen + (set j | j in row && j !in todo && j > i && flags[j] :: (i, j))
      invariant Winner(w, all, a, b, best)
    {
      ghost var some := Member(todo);
      var j :| j in todo;
      todo := todo - {j};
      if j <= i || !flags[j] {
        continue;
      }
      OneMoreSeen(w, all, a, b, best, i, j);
      all := all + {(i, j)};
      var v := row[j];
      if v < best || (v == best && (i < a || (i == a && j < b))) {
        best, a, b := v, i, j;
      }
    }
    assert all == seen + (set j | j in row && j > i && flags[j] :: (i, j));
  }

  /** d holds, for every flagged id, its row of w but for the diagonal. */
  ghost predicate Rows(d: Table, flags: seq<bool>, w: Mat) {
    && (forall i :: i in d <==> 0 <= i < |flags| && flags[i])
    && (forall i :: i in d ==> d[i].Keys == d.Keys - {i})
    && (forall i, j :: i in d && j in d[i] ==> d[i][j] == w(i, j))
  }

  lemma RowIs(d: Table, flags: seq<bool>, w: Mat, i: nat)
    requires Rows(d, flags, w) && i < |flags|
    ensures i in d <==> flags[i]
    ensures i in d ==> d[i].Keys == d.Keys - {i} && forall j :: j in d[i] ==> 0 <= j < |flags| && d[i][j] == w(i, j)
  {
  }

  lemma RowsFlagged(d: Table, flags: seq<bool>, w: Mat)
    requires Rows(d, flags, w)
    ensures forall k :: k in d.Keys <==> 0 <= k < |flags| && flags[k]
  {
  }

  /** The first closest pair i < j among flagged ids, or (-1, -1) when every pair is at the limit. */
  method FindClosest(d: Table, flags: seq<bool>, ghost w: Mat) returns (a: int, b: int, best: real)
    requires Rows(d, flags, w)
    ensures a < 0 ==> best == MAX_FLOAT64 && forall i, j :: i in d && j in d && i < j ==> w(i, j) >= MAX_FLOAT64
    ensures a >= 0 ==> a in d && b in d && a < b && best == w(a, b) && best < MAX_FLOAT64
    ensures a >= 0 ==> forall i, j :: i in d && j in d && i < j ==> Before(best, a, b, w(i, j), i, j)
  {
    hide Winner, Before, PairsFrom, Rows;
    a, b, best := -1, -1, MAX_FLOAT64;
    ghost var seen: set<(int, int)> := {};
    NoneSeen(w, d.Keys);
    for i := 0 to |flags|
      invariant Winner(w, seen, a, b, best) && PairsFrom(d.Keys, i, seen)
    {
      ghost var before := seen;
      RowIs(d, flags, w, i);
      if !flags[i] {
        RowSkipped(d.Keys, i, before);
        continue;
      }
      a, b, best := ScanRow(d[i], i, flags, w, seen, a, b, best);
      seen := seen + (set j | j in d[i] && j > i && flags[j] :: (i, j));
      RowsFlagged(d, flags, w);
      RowSeen(d.Keys, d[i].Keys, i, flags, before);
    }
    RowsFlagged(d, flags, w);
    WinnerOfAll(d.Keys, |flags|, w, seen, a, b, best);
  }

  /** The pairs of ids whose lower id is below i. */
  ghost predicate PairsFrom(ids: set<int>, i: nat, seen: set<(int, int)>) {
    forall p :: p in seen <==> p.0 in ids && p.1 in ids && 0 <= p.0 < p.1 && p.0 < i
  }

  lemma RowSkipped(ids: set<int>, i: nat, seen: set<(int, int)>)
    requires PairsFrom(ids, i, seen) && i !in ids
    ensures PairsFrom(ids, i + 1, seen)
  {
  }

  lemma RowSeen(ids: set<int>, row: set<int>, i: nat, flags: seq<bool>, seen: set<(int, int)>)
    requires PairsFrom(ids, i, seen) && i in ids && row == ids - {i}
    requires forall k :: k in ids <==> 0 <= k < |flags| && flags[k]
    ensures PairsFrom(ids, i + 1, seen + (set j | j in row && j > i && flags[j] :: (i, j)))
  {
    var now := seen + (set j | j in row && j > i && flags[j] :: (i, j));
    forall p ensures p in now <==> p.0 in ids && p.1 in ids && 0 <= p.0 < p.1 && p.0 < i + 1 {
      assert p == (p.0, p.1);
    }
  }

  lemma NoneSeen(w: Mat, ids: set<int>)
    ensures Winner(w, {}, -1, -1, MAX_FLOAT64) && PairsFrom(ids, 0, {})
  {
  }

  /** When every pair of ids was seen, the winner is the first closest of all. */
  lemma WinnerOfAll(ids: set<int>, n: nat, w: Mat, seen: set<(int, int)>, a: int, b: int, best: real)
    requires Winner(w, seen, a, b, best) && PairsFrom(ids, n, seen)
    requires forall i :: i in ids ==> 0 <= i < n
    ensures a < 0 ==> best == MAX_FLOAT64 && forall i, j :: i in ids && j in ids && i < j ==> w(i, j) >= MAX_FLOAT64
    ensures a >= 0 ==> a in ids && b in ids && a < b && best == w(a, b) && best < MAX_FLOAT64
    ensures a >= 0 ==> forall i, j :: i in ids && j in ids && i < j ==> Before(best, a, b, w(i, j), i, j)
  {
    hide Before;
    forall i, j | i in ids && j in ids && i < j
      ensures a < 0 ==> w(i, j) >= MAX_FLOAT64
      ensures a >= 0 ==> Before(best, a, b, w(i, j), i, j)
    {
      var pair := (i, j);
      assert pair in seen && w(pair.0, pair.1) == w(i, j);
    }
  }

  // ----- One join

  /** The flags that are set are those of ids. */
  ghost predicate Flagged(flags: seq<bool>, ids: set<int>) {
    && (forall i :: i in ids ==> 0 <= i < |flags|)
    && (forall i :: 0 <= i < |flags| ==> (flags[i] <==> i in ids))
  }

  /** sizes begins with the number of leaves of every cluster. */
  ghost predicate Sizes(sizes: seq<int>, t: seq<seq<int>>) {
    |sizes| >= |t| && forall i :: 0 <= i < |t| ==> sizes[i] == |t[i]|
  }

  /** d holds exactly the distances between different ids. */
  ghost predicate Tabulates(d: Table, w: Mat, ids: set<int>) {
    && d.Keys == ids
    && (forall i :: i in d ==> d[i].Keys == ids - {i})
    && (forall i, j :: i in d && j in d[i] ==> d[i][j] == w(i, j))
  }

  /** v holds, for every listed id, the size-weighted mean of its entries in rows a and b. */
  ghost predicate Merged(d: Table, ids: set<int>, a: int, sa: int, b: int, sb: int, v: Vec) {
    && sa > 0 && sb > 0 && a in d && b in d
    && forall i :: i in ids ==> i in d && i in d[a] && i in d[b] && v(i) == Weighted(d[a][i], sa, d[b][i], sb)
  }

  /** Adds row and column newId, the weighted means of rows a and b over the flagged ids. */
  method AddCluster(d: Table, flags: seq<bool>, a: int, sa: int, b: int, sb: int, newId: nat,
                    ghost ids: set<int>, ghost v: Vec) returns (d': Table)
    requires Merged(d, ids, a, sa, b, sb, v) && newId !in ids && a !in ids && b !in ids
    requires Flagged(flags, ids + {newId})
    ensures d'.Keys == d.Keys + {newId} && d'[newId].Keys == ids
    ensures forall i :: i in ids ==> d'[newId][i] == v(i) && d'[i] == d[i][newId := v(i)]
  {
    var row: map<int, real> := map[];
    d' := d;
    for i := 0 to |flags|
      invariant d'.Keys == d.Keys && d'[a] == d[a] && d'[b] == d[b]
      invariant forall k :: k in row <==> k < i && k in ids
      invariant forall k :: k in row ==> row[k] == v(k) && d'[k] == d[k][newId := v(k)]
      invariant forall k :: k in d && k !in row ==> d'[k] == d[k]
    {
      if !flags[i] || i == newId {
        continue;
      }
      var merged := Weighted(d'[a][i], sa, d'[b][i], sb);
      row := row[i := merged];
      d' := d'[i := d'[i][newId := merged]];
    }
    forall k ensures k in row <==> k in ids {
      assert k in ids ==> k in ids + {newId};
    }
    assert row.Keys == ids;
    d' := d'[newId := row];
  }

  /** Drops rows and columns a and b. */
  method DropMerged(d: Table, a: int, b: int) returns (d': Table)
    ensures d'.Keys == d.Keys - {a, b}
    ensures forall i :: i in d' ==> d'[i] == d[i] - {a, b}
  {
    d' := d - {a, b};
    var todo := d'.Keys;
    while todo != {}
      invariant todo <= d'.Keys && d'.Keys == d.Keys - {a, b}
      invariant forall i :: i in d' && i in todo ==> d'[i] == d[i]
      invariant forall i :: i in d' && i !in todo ==> d'[i] == d[i] - {a, b}
    {
      ghost var some := Member(todo);
      var i :| i in todo;
      d' := d'[i := d'[i] - {a, b}];
      todo := todo - {i};
    }
  }

  /** Adding newId's distances and dropping rows a and b tabulates the longer matrix. */
  lemma JoinedTable(d: Table, d1: Table, d2: Table, a: int, b: int, newId: int, w: Mat, w': Mat, ids: set<int>)
    requires Tabulates(d, w, ids) && newId !in ids && a in ids && b in ids
    requires forall i, j :: i in ids && j in ids ==> w'(i, j) == w(i, j)
    requires forall i :: i in ids ==> w'(i, newId) == w'(newId, i)
    requires d1.Keys == ids + {newId} && d1[newId].Keys == ids - {a, b}
    requires forall i :: i in ids - {a, b} ==> d1[newId][i] == w'(newId, i) && d1[i] == d[i][newId := w'(newId, i)]
    requires d2.Keys == d1.Keys - {a, b}
    requires forall i :: i in d2 ==> d2[i] == d1[i] - {a, b}
    ensures Tabulates(d2, w', ids - {a, b} + {newId})
  {
    forall i | i in d2
      ensures d2[i].Keys == ids - {a, b} + {newId} - {i}
    {
      if i != newId { assert i in ids - {a, b}; }
    }
    forall i, j | i in d2 && j in d2[i]
      ensures d2[i][j] == w'(i, j)
    {
      if i != newId {
        assert i in ids - {a, b};
        if j != newId { assert d2[i][j] == d[i][j]; }
      }
    }
  }

  // ----- The whole construction

  lemma ExtendedLinkage(dist: Mat, n: nat, ms: seq<Merge>, m: Merge)
    requires AverageLinkage(dist, n, ms) && JoinsLeast(dist, ms, n, m)
    ensures AverageLinkage(dist, n, ms + [m])
    ensures ActiveSet(ms + [m], n) == ActiveSet(ms, n) - {m.a, m.b} + {n + |ms|}
    ensures LeafTable(ms + [m], n) == LeafTable(ms, n) + [LeafTable(ms, n)[m.a] + LeafTable(ms, n)[m.b]]
  {
    hide Before, ClusterDistance;
    assert (ms + [m])[..|ms|] == ms;
    forall id ensures id in ActiveSet(ms + [m], n) <==> id in ActiveSet(ms, n) - {m.a, m.b} + {n + |ms|} {
      ActiveAfter(ms + [m], n, id);
    }
  }

  /** The tables of a merge sequence: flags, sizes and distances. */
  ghost predicate Mirrors(dist: Mat, n: nat, ms: seq<Merge>, flags: seq<bool>, sizes: seq<int>, d: Table)
    requires Proper(ms, n)
  {
    && |flags| == |sizes| == 2 * n - 1
    && Flagged(flags, ActiveSet(ms, n))
    && Sizes(sizes, LeafTable(ms, n))
    && Tabulates(d, Distances(dist, n, ms), ActiveSet(ms, n))
  }

  /** Every pair the merges left is at the limit. */
  ghost predicate Stuck(dist: Mat, n: nat, ms: seq<Merge>)
    requires Proper(ms, n)
  {
    Apart(dist, ms, n, MAX_FLOAT64)
  }

  /** What FindClosest says about the merges it looked at. */
  lemma ClosestJoins(dist: Mat, n: nat, ms: seq<Merge>, d: Table, w: Mat, a: int, b: int, best: real)
    requires Proper(ms, n) && w == Distances(dist, n, ms) && d.Keys == ActiveSet(ms, n)
    requires a < 0 ==> forall i, j :: i in d && j in d && i < j ==> w(i, j) >= MAX_FLOAT64
    requires a >= 0 ==> a in d && b in d && a < b && best == w(a, b) && best < MAX_FLOAT64
    requires a >= 0 ==> forall i, j :: i in d && j in d && i < j ==> Before(best, a, b, w(i, j), i, j)
    ensures a < 0 ==> Stuck(dist, n, ms)
    ensures a >= 0 ==> JoinsLeast(dist, ms, n, Merge(a, b, best)) && !Stuck(dist, n, ms)
  {
    hide ClusterDistance, Before, Proper;
  }

  lemma MergedRows(d: Table, w: Mat, w': Mat, ids: set<int>, a: int, sa: int, b: int, sb: int, newId: int)
    requires Tabulates(d, w, ids) && a in ids && b in ids && sa > 0 && sb > 0
    requires forall i :: i in ids ==> w'(newId, i) == Weighted(w(a, i), sa, w(b, i), sb)
    ensures Merged(d, ids - {a, b}, a, sa, b, sb, Row(w', newId))
  {
    forall i | i in ids - {a, b}
      ensures i in d && i in d[a] && i in d[b]
      ensures Row(w', newId)(i) == Weighted(d[a][i], sa, d[b][i], sb)
    {
      assert d[a][i] == w(a, i) && d[b][i] == w(b, i);
    }
  }

  /** The new cluster's distances are the merged rows, and the matrix grows by them. */
  lemma JoinFacts(dist: Mat, n: nat, ms: seq<Merge>, m: Merge, d: Table, w: Mat, w': Mat, ids: set<int>, newId: int)
    requires Symmetric(n, dist) && Proper(ms, n) && Proper(ms + [m], n) && newId == n + |ms|
    requires Active(ms, n, m.a) && Active(ms, n, m.b)
    requires w == Distances(dist, n, ms) && w' == Distances(dist, n, ms + [m]) && ids == ActiveSet(ms, n)
    requires Tabulates(d, w, ids)
    ensures forall i, j :: i in ids && j in ids ==> w'(i, j) == w(i, j)
    ensures forall i :: i in ids ==> w'(i, newId) == w'(newId, i)
    ensures Merged(d, ids - {m.a, m.b}, m.a, |LeafTable(ms, n)[m.a]|, m.b, |LeafTable(ms, n)[m.b]|, Row(w', newId))
  {
    hide LeafTable, Distances, Tabulates, Merged, Weighted, Symmetric;
    DistancesAfterJoin(dist, n, ms, m, newId, w, w');
    MergedRows(d, w, w', ids, m.a, |LeafTable(ms, n)[m.a]|, m.b, |LeafTable(ms, n)[m.b]|, newId);
  }

  lemma FlagsAfter(flags: seq<bool>, ids: set<int>, a: int, b: int, newId: int)
    requires Flagged(flags, ids) && a in ids && b in ids && 0 <= newId < |flags| && newId !in ids
    ensures Flagged(flags[a := false][b := false][newId := true], ids - {a, b} + {newId})
  {
  }

  lemma SizesAfter(sizes: seq<int>, t: seq<seq<int>>, a: int, b: int, sum: int)
    requires Sizes(sizes, t) && |t| < |sizes| && 0 <= a < |t| && 0 <= b < |t| && sum == sizes[a] + sizes[b]
    ensures Sizes(sizes[|t| := sum], t + [t[a] + t[b]])
  {
  }

  /** The in-place updates of joining a and b. */
  method PerformJoin(active: array<bool>, size: array<int>, d: Table, a: int, b: int, newId: nat, newSize: int,
                     ghost w: Mat, ghost w': Mat, ghost ids: set<int>)
    returns (d': Table)
    requires active.Length == size.Length && newId < size.Length && newId !in ids && a in ids && b in ids
    requires Flagged(active[..], ids) && Tabulates(d, w, ids)
    requires forall i, j :: i in ids && j in ids ==> w'(i, j) == w(i, j)
    requires forall i :: i in ids ==> w'(i, newId) == w'(newId, i)
    requires 0 <= a < size.Length && 0 <= b < size.Length
    requires Merged(d, ids - {a, b}, a, size[a], b, size[b], Row(w', newId))
    modifies active, size
    ensures Tabulates(d', w', ids - {a, b} + {newId})
    ensures active[..] == old(active[..])[a := false][b := false][newId := true]
    ensures size[..] == old(size[..])[newId := newSize]
  {
    ghost var flags := active[..];
    FlagsAfter(flags, ids, a, b, newId);
    active[a] := false;
    active[b] := false;
    active[newId] := true;
    size[newId] := newSize;
    assert active[..] == flags[a := false][b := false][newId := true];
    var d1 := AddCluster(d, active[..], a, size[a], b, size[b], newId, ids - {a, b}, Row(w', newId));
    d' := DropMerged(d1, a, b);
    JoinedTable(d, d1, d', a, b, newId, w, w', ids);
  }

  /** m extends the merges by one join of active clusters. */
  ghost predicate Extends(n: nat, ms: seq<Merge>, m: Merge) {
    && Proper(ms, n) && Proper(ms + [m], n)
    && Active(ms, n, m.a) && Active(ms, n, m.b) && m.a != m.b
    && ActiveSet(ms + [m], n) == ActiveSet(ms, n) - {m.a, m.b} + {n + |ms|}
    && LeafTable(ms + [m], n) == LeafTable(ms, n) + [LeafTable(ms, n)[m.a] + LeafTable(ms, n)[m.b]]
  }

  lemma MirrorsAfter(dist: Mat, n: nat, ms: seq<Merge>, m: Merge, flags: seq<bool>, sizes: seq<int>, d': Table,
                     flags': seq<bool>, sizes': seq<int>, newId: int, sum: int)
    requires |flags| == |sizes| == 2 * n - 1 && |ms| < n - 1 && Extends(n, ms, m) && newId == n + |ms|
    requires Flagged(flags, ActiveSet(ms, n)) && Sizes(sizes, LeafTable(ms, n))
    requires flags' == flags[m.a := false][m.b := false][newId := true]
    requires sum == sizes[m.a] + sizes[m.b] && sizes' == sizes[newId := sum]
    requires Tabulates(d', Distances(dist, n, ms + [m]), ActiveSet(ms, n) - {m.a, m.b} + {newId})
    ensures Mirrors(dist, n, ms + [m], flags', sizes', d')
  {
    FlagsAfter(flags, ActiveSet(ms, n), m.a, m.b, n + |ms|);
    SizesAfter(sizes, LeafTable(ms, n), m.a, m.b, sum);
  }

  /** The tables after joining m.a and m.b mirror the longer sequence. */
  method CommitJoin(ghost dist: Mat, n: nat, active: array<bool>, size: array<int>, d: Table,
                    ghost ms: seq<Merge>, ghost m: Merge, a: int, b: int, newId: nat)
    returns (d': Table)
    requires |ms| < n - 1 && newId == n + |ms| && m.a == a && m.b == b
    requires Symmetric(n, dist) && Extends(n, ms, m)
    requires Mirrors(dist, n, ms, active[..], size[..], d)
    modifies active, size
    ensures Mirrors(dist, n, ms + [m], active[..], size[..], d')
  {
    ghost var flags, sizes := active[..], size[..];
    ghost var w, w', ids := Distances(dist, n, ms), Distances(dist, n, ms + [m]), ActiveSet(ms, n);
    ghost var t := LeafTable(ms, n);
    assert sizes[a] == |t[a]| && sizes[b] == |t[b]|;
    JoinFacts(dist, n, ms, m, d, w, w', ids, newId);
    assert Merged(d, ids - {a, b}, a, size[a], b, size[b], Row(w', newId));
    var newSize := size[a] + size[b];
    d' := PerformJoin(active, size, d, a, b, newId, newSize, w, w', ids);
    MirrorsAfter(dist, n, ms, m, flags, sizes, d', active[..], size[..], newId, newSize);
  }

  /** Joins the closest pair, or finds that every pair is at the limit. */
  method JoinClosest(ghost dist: Mat, n: nat, active: array<bool>, size: array<int>, d: Table, merges: seq<Merge>)
    returns (done: bool, d': Table, merges': seq<Merge>)
    requires n > 0 && |merges| < n - 1
    requires Symmetric(n, dist) && AverageLinkage(dist, n, merges)
    requires Mirrors(dist, n, merges, active[..], size[..], d)
    modifies active, size
    ensures AverageLinkage(dist, n, merges')
    ensures done ==> merges' == merges && Stuck(dist, n, merges)
    ensures !done ==> |merges'| == |merges| + 1 && merges'[..|merges|] == merges && !Stuck(dist, n, merges)
    ensures !done ==> Mirrors(dist, n, merges', active[..], size[..], d')
  {
    ghost var w := Distances(dist, n, merges);
    var a, b, best := FindClosest(d, active[..], w);
    ClosestJoins(dist, n, merges, d, w, a, b, best);
    if a < 0 {
      return true, d, merges;
    }
    var m := Merge(a, b, best);
    ExtendedLinkage(dist, n, merges, m);
    d' := CommitJoin(dist, n, active, size, d, merges, m, a, b, n + |merges|);
    done, merges' := false, merges + [m];
  }

  lemma StartMirrors(dist: Mat, n: nat, flags: seq<bool>, sizes: seq<int>, d: Table)
    requires n > 0 && |flags| == |sizes| == 2 * n - 1
    requires forall i :: 0 <= i < |flags| ==> flags[i] == (i < n) && sizes[i] == if i < n then 1 else 0
    requires forall i :: i in d <==> 0 <= i < n
    requires forall i :: i in d ==> forall j :: j in d[i] <==> 0 <= j < n && j != i
    requires forall i, j :: i in d && j in d[i] ==> d[i][j] == dist(i, j)
    ensures Mirrors(dist, n, [], flags, sizes, d)
  {
    var ids := ActiveSet([], n);
    forall i ensures i in ids <==> 0 <= i < n {
    }
    assert d.Keys == ids;
    forall i | i in d
      ensures d[i].Keys == ids - {i}
    {
    }
    forall i, j | i in d && j in d[i]
      ensures d[i][j] == Distances(dist, n, [])(i, j)
    {
      PointDistance(dist, n, i, j);
    }
  }

  /** The table of the points' own distances. */
  method PointTable(n: nat, dist: array2<real>) returns (d: Table)
    requires Square(dist, n)
    ensures forall i :: i in d <==> 0 <= i < n
    ensures forall i :: i in d ==> forall j :: j in d[i] <==> 0 <= j < n && j != i
    ensures forall i, j :: i in d && j in d[i] ==> d[i][j] == dist[i, j]
  {
    d := map[];
    for i := 0 to n
      invariant forall k :: k in d <==> 0 <= k < i
      invariant forall k :: k in d ==> forall j :: j in d[k] <==> 0 <= j < n && j != k
      invariant forall k, j :: k in d && j in d[k] ==> d[k][j] == dist[k, j]
    {
      var row: map<int, real> := map[];
      for j := 0 to n
        invariant forall l :: l in row <==> 0 <= l < j && l != i
        invariant forall l :: l in row ==> row[l] == dist[i, l]
      {
        if i != j {
          row := row[j := dist[i, j]];
        }
      }
      d := d[i := row];
    }
  }

  /** Distances below the limit never leave the construction stuck early. */
  lemma NeverStuck(dist: Mat, n: nat, ms: seq<Merge>)
    requires Symmetric(n, dist) && Proper(ms, n) && |ms| < n - 1
    requires forall i, j :: 0 <= i < j < n ==> dist(i, j) < MAX_FLOAT64
    ensures !Stuck(dist, n, ms)
  {
    ClustersWithin(dist, ms, n, MAX_FLOAT64);
    var i, j := TwoLeft(ms, n);
  }

  /** Average-linkage clustering of n points: as many merges as the limit allows, n - 1 when every
      distance is below it. */
  method BuildDendrogram(n: nat, dist: array2<real>) returns (merges: seq<Merge>)
    requires n > 0 && Square(dist, n) && Symmetric(n, Entries(dist))
    ensures |merges| <= n - 1 && AverageLinkage(Entries(dist), n, merges)
    ensures |merges| < n - 1 ==> Stuck(Entries(dist), n, merges)
    ensures (forall i, j :: 0 <= i < j < n ==> dist[i, j] < MAX_FLOAT64) ==> |merges| == n - 1
  {
    ghost var e := Entries(dist);
    var active := new bool[2 * n - 1](i => i < n);
    var size := new int[2 * n - 1](i => if i < n then 1 else 0);
    var d := PointTable(n, dist);
    merges := [];
    StartMirrors(e, n, active[..], size[..], d);
    var done := false;
    while |merges| < n - 1 && !done
      invariant fresh(active) && fresh(size) && |merges| <= n - 1
      invariant AverageLinkage(e, n, merges)
      invariant done ==> Stuck(e, n, merges)
      invariant !done ==> Mirrors(e, n, merges, active[..], size[..], d)
      decreases n - |merges|, !done
    {
      done, d, merges := JoinClosest(e, n, active, size, d, merges);
    }
    if |merges| < n - 1 && forall i, j :: 0 <= i < j < n ==> e(i, j) < MAX_FLOAT64 {
      NeverStuck(e, n, merges);
    }
  }
}
