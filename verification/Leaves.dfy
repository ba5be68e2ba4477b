/** leafOrder of internal/cohort/mds.go: the left-to-right order of the dendrogram's leaves, walked with an
    explicit stack, from the root at the last merge down to the points. The leaves of a merge stand together. */
module Leaves {
  import opened Linkage
  import opened CohortCut
  import opened SetFacts

  // ----- The stack walk

  /** The leaves still to come, from the top of the stack down. */
  ghost function Pending(t: seq<seq<int>>, stack: seq<int>): seq<int>
    requires Ids(t, stack)
  {
    if stack == [] then [] else t[stack[|stack| - 1]] + Pending(t, stack[..|stack| - 1])
  }

  /** The nodes still to visit: a subtree of m leaves has 2m - 1. */
  ghost function Work(t: seq<seq<int>>, stack: seq<int>): (w: nat)
    requires Ids(t, stack)
    requires forall k :: 0 <= k < |t| ==> t[k] != []
  {
    if stack == [] then 0 else 2 * |t[stack[|stack| - 1]]| - 1 + Work(t, stack[..|stack| - 1])
  }

  lemma JoinedLeaves(ms: seq<Merge>, n: nat, s: nat)
    requires WellFormed(ms, n) && s < |ms|
    ensures LeafTable(ms, n)[n + s] == LeafTable(ms, n)[ms[s].a] + LeafTable(ms, n)[ms[s].b]
  {
    LeafTablePrefix(ms, n, s + 1);
    LeafTablePrefix(ms, n, s);
    assert ms[..s + 1][..s] == ms[..s];
  }

  ghost predicate Ids(t: seq<seq<int>>, stack: seq<int>) {
    forall k :: 0 <= k < |stack| ==> 0 <= stack[k] < |t|
  }

  lemma PushOne(t: seq<seq<int>>, rest: seq<int>, a: int)
    requires Ids(t, rest) && 0 <= a < |t| && forall k :: 0 <= k < |t| ==> t[k] != []
    ensures Pending(t, rest + [a]) == t[a] + Pending(t, rest)
    ensures Work(t, rest + [a]) == 2 * |t[a]| - 1 + Work(t, rest)
  {
    assert (rest + [a])[..|rest|] == rest;
  }

  lemma PushTwo(t: seq<seq<int>>, rest: seq<int>, a: int, b: int)
    requires Ids(t, rest) && 0 <= a < |t| && 0 <= b < |t| && forall k :: 0 <= k < |t| ==> t[k] != []
    ensures Pending(t, rest + [b, a]) == t[a] + (t[b] + Pending(t, rest))
    ensures Work(t, rest + [b, a]) == 2 * |t[a]| - 1 + (2 * |t[b]| - 1 + Work(t, rest))
  {
    assert rest + [b, a] == rest + [b] + [a];
    PushOne(t, rest, b);
    PushOne(t, rest + [b], a);
  }

  /** The leaves under the last merge, by an explicit stack. */
  method Walk(merges: seq<Merge>, n: nat) returns (out: seq<int>)
    requires WellFormed(merges, n) && merges != []
    ensures out == LeafTable(merges, n)[n + |merges| - 1]
  {
    hide LeafTable;
    ghost var t := LeafTable(merges, n);
    out := [];
    var stack := [n + |merges| - 1];
    assert Pending(t, stack) == t[n + |merges| - 1] + Pending(t, []);
    while |stack| > 0
      invariant Ids(t, stack)
      invariant out + Pending(t, stack) == t[n + |merges| - 1]
      decreases Work(t, stack)
    {
      var id := stack[|stack| - 1];
      ghost var before := Pending(t, stack);
      stack := stack[..|stack| - 1];
      assert before == t[id] + Pending(t, stack);
      if id < n {
        out := out + [id];
        continue;
      }
      var m := merges[id - n];
      JoinedLeaves(merges, n, id - n);
      PushTwo(t, stack, m.a, m.b);
      assert out + before == out + Pending(t, stack + [m.b, m.a]);
      stack := stack + [m.b, m.a];
    }
  }

  /** xs lists each of 0, ..., n - 1 once. */
  ghost predicate Permutation(xs: seq<int>, n: nat) {
    NoDuplicates(xs) && forall i :: i in xs <==> 0 <= i < n
  }

  /** Appends the points not yet listed, in index order. */
  method AppendMissing(walked: seq<int>, n: nat) returns (out: seq<int>)
    requires NoDuplicates(walked) && Points(walked, n)
    ensures Permutation(out, n) && walked <= out
    ensures forall i, j :: |walked| <= i < j < |out| ==> out[i] < out[j]
  {
    var seen := new bool[n](i => false);
    for k := 0 to |walked|
      invariant forall i :: 0 <= i < n ==> (seen[i] <==> i in walked[..k])
    {
      seen[walked[k]] := true;
      assert walked[..k + 1] == walked[..k] + [walked[k]];
    }
    assert walked[..|walked|] == walked;
    out := walked;
    for i := 0 to n
      invariant walked <= out && NoDuplicates(out)
      invariant forall x :: x in out <==> x in walked || (0 <= x < i && x !in walked)
      invariant forall k :: |walked| <= k < |out| ==> out[k] < i
      invariant forall k, l :: |walked| <= k < l < |out| ==> out[k] < out[l]
    {
      if !seen[i] {
        out := out + [i];
      }
    }
  }

  /** The left-to-right leaves of the last merge, then the points it does not reach in index order. */
  ghost predicate LeafOrdered(merges: seq<Merge>, n: nat, out: seq<int>)
    requires Proper(merges, n)
  {
    && Permutation(out, n)
    && (merges == [] ==> out == seq(n, i => i))
    && (merges != [] && n > 0 ==>
          var root := LeafTable(merges, n)[n + |merges| - 1];
          root <= out && forall i, j :: |root| <= i < j < |out| ==> out[i] < out[j])
  }

  method LeafOrder(merges: seq<Merge>, n: nat) returns (out: seq<int>)
    requires Proper(merges, n)
    ensures LeafOrdered(merges, n, out)
  {
    if n == 0 {
      if merges != [] { NoPointsNoMerges(merges); }
      return [];
    }
    if |merges| == 0 {
      out := seq(n, i => i);
      forall i ensures i in out <==> 0 <= i < n {
        if 0 <= i < n { assert out[i] == i; }
      }
      return;
    }
    out := Walk(merges, n);
    LeavesDistinct(merges, n, n + |merges| - 1);
    if |out| < n {
      out := AppendMissing(out, n);
    } else {
      FullListing(out, n);
    }
  }

  lemma {:induction false} NoPointsNoMerges(ms: seq<Merge>)
    requires Proper(ms, 0)
    ensures ms == []
  {
    if ms != [] {
      NoPointsNoMerges(ms[..|ms| - 1]);
    }
  }

  /** n distinct points are all of them. */
  lemma FullListing(xs: seq<int>, n: nat)
    requires NoDuplicates(xs) && Points(xs, n) && |xs| >= n
    ensures Permutation(xs, n)
  {
    var s := set x | x in xs;
    ListingSize(xs, s);
    PointSetSize(n);
    assert s <= PointSet(n);
    SubsetOfSize(s, PointSet(n));
  }

  // ----- Contiguous subtrees

  /** part stands in one piece somewhere in whole. */
  ghost predicate Contiguous(part: seq<int>, whole: seq<int>) {
    exists left, right :: left + part + right == whole
  }

  lemma ContiguousInside(part: seq<int>, mid: seq<int>, whole: seq<int>)
    requires Contiguous(part, mid) && Contiguous(mid, whole)
    ensures Contiguous(part, whole)
  {
    var l, r :| l + part + r == mid;
    var l', r' :| l' + mid + r' == whole;
    assert (l' + l) + part + (r + r') == whole;
  }

  /** In a complete dendrogram every cluster's leaves are one run of the root's. */
  lemma {:induction false} SubtreeContiguous(ms: seq<Merge>, n: nat, id: nat)
    requires Proper(ms, n) && n > 0 && |ms| == n - 1 && id < n + |ms|
    ensures Contiguous(LeafTable(ms, n)[id], LeafTable(ms, n)[n + |ms| - 1])
    decreases n + |ms| - id
  {
    var t := LeafTable(ms, n);
    var root := n + |ms| - 1;
    if id == root {
      assert [] + t[root] + [] == t[root];
    } else {
      OnlyRootActive(ms, n, id);
      var s := ConsumedBy(ms, n, id);
      JoinedLeaves(ms, n, s);
      SubtreeContiguous(ms, n, n + s);
      var a, b := t[ms[s].a], t[ms[s].b];
      assert [] + a + b == a + b && a + b + [] == a + b;
      assert Contiguous(a, a + b) && Contiguous(b, a + b);
      ContiguousInside(t[id], t[n + s], t[root]);
    }
  }

  /** A complete dendrogram leaves only its root. */
  lemma OnlyRootActive(ms: seq<Merge>, n: nat, id: nat)
    requires Proper(ms, n) && n > 0 && |ms| == n - 1 && id < n + |ms| - 1
    ensures !Active(ms, n, id)
  {
    ActiveCount(ms, n);
    var root := n + |ms| - 1;
    RootActive(ms, n);
    if Active(ms, n, id) {
      assert |{id, root}| == 2;
      SubsetSize({id, root}, ActiveSet(ms, n));
    }
  }

  lemma RootActive(ms: seq<Merge>, n: nat)
    requires Proper(ms, n) && n > 0
    ensures Active(ms, n, n + |ms| - 1)
  {
    if ms != [] {
      ActiveAfter(ms, n, n + |ms| - 1);
    }
  }

  /** The leaf order of a complete dendrogram lists every merge's leaves in one run. */
  lemma LeafOrderContiguous(ms: seq<Merge>, n: nat, out: seq<int>, s: nat)
    requires Proper(ms, n) && n > 0 && |ms| == n - 1 && s < |ms|
    requires LeafOrdered(ms, n, out)
    ensures Contiguous(LeafTable(ms, n)[n + s], out)
  {
    var root := LeafTable(ms, n)[n + |ms| - 1];
    SubtreeContiguous(ms, n, n + s);
    assert [] + root + out[|root|..] == out;
    ContiguousInside(LeafTable(ms, n)[n + s], root, out);
  }
}
