/** seriate of internal/cohort/mds.go: clusters in dendrogram leaf order, gathered
    into one block per cohort where the cohort's first member fell. */
module Seriation {
  import opened Matrices
  import opened Grids
  import opened ClassicalMds
  import opened Linkage
  import opened Dendrogram
  import opened Leaves
  import opened SetFacts

  /** The cohort of a cluster name, "" when it has none. */
  function CohortName(cohortOf: map<string, string>, name: string): string {
    if name in cohortOf then cohortOf[name] else ""
  }

  /** Names without a cohort, or with an empty one, make up one block. */
  lemma WithoutCohort(cohortOf: map<string, string>, x: string, y: string)
    requires x !in cohortOf && (y !in cohortOf || cohortOf[y] == "")
    ensures CohortName(cohortOf, x) == CohortName(cohortOf, y)
  {
  }

  /** The names of one cohort, in order. */
  ghost function Members(cohortOf: map<string, string>, names: seq<string>, c: string): seq<string> {
    if names == [] then []
    else
      var k := |names| - 1;
      Members(cohortOf, names[..k], c) + (if CohortName(cohortOf, names[k]) == c then [names[k]] else [])
  }

  /** The blocks one after the other. */
  ghost function Flatten(cohortOf: map<string, string>, names: seq<string>, blocks: seq<string>): seq<string> {
    if blocks == [] then []
    else
      var k := |blocks| - 1;
      Flatten(cohortOf, names, blocks[..k]) + Members(cohortOf, names, blocks[k])
  }

  /** blocks lists every cohort among the names once, in order of first appearance. */
  ghost predicate BlockOrder(cohortOf: map<string, string>, names: seq<string>, blocks: seq<string>) {
    && (forall i, j :: 0 <= i < j < |blocks| ==> blocks[i] != blocks[j])
    && (forall c :: c in blocks <==> Appears(cohortOf, names, c))
    && (forall k, i, j :: 0 <= k < |names| && 0 <= i < j < |blocks| && CohortName(cohortOf, names[k]) == blocks[j] ==>
          Appears(cohortOf, names[..k], blocks[i]))
  }

  ghost predicate Appears(cohortOf: map<string, string>, names: seq<string>, c: string) {
    exists k :: 0 <= k < |names| && CohortName(cohortOf, names[k]) == c
  }

  /** What the first pass over the leaves has gathered. */
  ghost predicate Gathered(cohortOf: map<string, string>, names: seq<string>, blocks: seq<string>,
                           members: map<string, seq<string>>) {
    && BlockOrder(cohortOf, names, blocks)
    && (forall c :: c in members <==> c in blocks)
    && (forall c :: c in members ==> members[c] == Members(cohortOf, names, c))
  }

  lemma {:induction false} NoMembers(cohortOf: map<string, string>, names: seq<string>, c: string)
    requires forall k :: 0 <= k < |names| ==> CohortName(cohortOf, names[k]) != c
    ensures Members(cohortOf, names, c) == []
  {
    if names != [] { NoMembers(cohortOf, names[..|names| - 1], c); }
  }

  /** The block order after one more name. */
  lemma BlocksAfter(cohortOf: map<string, string>, names: seq<string>, name: string, blocks: seq<string>,
                    blocks': seq<string>)
    requires BlockOrder(cohortOf, names, blocks)
    requires var c := CohortName(cohortOf, name); blocks' == if c in blocks then blocks else blocks + [c]
    ensures BlockOrder(cohortOf, names + [name], blocks')
  {
    var c := CohortName(cohortOf, name);
    var names' := names + [name];
    forall b ensures b in blocks' <==> Appears(cohortOf, names', b) {
      if b == c { assert CohortName(cohortOf, names'[|names|]) == c; }
      if k :| 0 <= k < |names| && CohortName(cohortOf, names[k]) == b {
        assert names'[k] == names[k];
      }
    }
    forall k, i, j | 0 <= k < |names'| && 0 <= i < j < |blocks'| && CohortName(cohortOf, names'[k]) == blocks'[j]
      ensures Appears(cohortOf, names'[..k], blocks'[i])
    {
      FirstBefore(cohortOf, names, name, blocks, blocks', k, i, j);
    }
  }

  lemma NothingGathered(cohortOf: map<string, string>)
    ensures Gathered(cohortOf, [], [], map[])
  {
  }

  lemma GatherOne(cohortOf: map<string, string>, names: seq<string>, name: string, blocks: seq<string>,
                  members: map<string, seq<string>>, blocks': seq<string>, members': map<string, seq<string>>)
    requires Gathered(cohortOf, names, blocks, members)
    requires var c := CohortName(cohortOf, name);
             && blocks' == (if c in members then blocks else blocks + [c])
             && members' == members[c := (if c in members then members[c] else []) + [name]]
    ensures Gathered(cohortOf, names + [name], blocks', members')
  {
    var c := CohortName(cohortOf, name);
    BlocksAfter(cohortOf, names, name, blocks, blocks');
    if c !in members { AbsentCohort(cohortOf, names, blocks, c); }
    forall b | b in members'
      ensures members'[b] == Members(cohortOf, names + [name], b)
    {
      MembersAfter(cohortOf, names, name, b);
    }
  }

  lemma AbsentCohort(cohortOf: map<string, string>, names: seq<string>, blocks: seq<string>, c: string)
    requires BlockOrder(cohortOf, names, blocks) && c !in blocks
    ensures Members(cohortOf, names, c) == []
  {
    forall k | 0 <= k < |names| ensures CohortName(cohortOf, names[k]) != c {
      if CohortName(cohortOf, names[k]) == c { assert Appears(cohortOf, names, c); }
    }
    NoMembers(cohortOf, names, c);
  }

  lemma MembersAfter(cohortOf: map<string, string>, names: seq<string>, name: string, c: string)
    ensures Members(cohortOf, names + [name], c) ==
            Members(cohortOf, names, c) + (if CohortName(cohortOf, name) == c then [name] else [])
  {
    assert (names + [name])[..|names|] == names;
  }

  lemma FirstBefore(cohortOf: map<string, string>, names: seq<string>, name: string, blocks: seq<string>,
                    blocks': seq<string>, k: nat, i: nat, j: nat)
    requires BlockOrder(cohortOf, names, blocks) && k <= |names| && i < j < |blocks'|
    requires blocks' == blocks || blocks' == blocks + [CohortName(cohortOf, name)]
    requires |blocks'| > |blocks| ==> CohortName(cohortOf, name) !in blocks
    requires CohortName(cohortOf, (names + [name])[k]) == blocks'[j]
    ensures Appears(cohortOf, (names + [name])[..k], blocks'[i])
  {
    var b := blocks'[i];
    assert i < |blocks| && b == blocks[i] && b in blocks;
    if k < |names| {
      assert (names + [name])[..k] == names[..k];
      assert CohortName(cohortOf, names[k]) in blocks;
      assert j < |blocks|;
      assert Appears(cohortOf, names[..k], blocks[i]);
    } else {
      assert (names + [name])[..k] == names;
    }
  }

  /** One block per cohort, in leaf order within the block. */
  method Gather(profiles: seq<ClusterProfile>, leaves: seq<int>, cohortOf: map<string, string>,
                ghost names: seq<string>) returns (out: seq<string>, ghost blocks: seq<string>)
    requires Points(leaves, |profiles|) && |names| == |leaves|
    requires forall k :: 0 <= k < |leaves| ==> names[k] == profiles[leaves[k]].name
    ensures BlockOrder(cohortOf, names, blocks) && out == Flatten(cohortOf, names, blocks)
  {
    hide BlockOrder, CohortName, Members;
    var order: seq<string> := [];
    var members: map<string, seq<string>> := map[];
    NothingGathered(cohortOf);
    assert names[..0] == [];
    for k := 0 to |leaves|
      invariant Gathered(cohortOf, names[..k], order, members)
    {
      ghost var order0, members0 := order, members;
      var name := profiles[leaves[k]].name;
      var c := CohortName(cohortOf, name);
      if c !in members {
        order := order + [c];
      }
      members := members[c := (if c in members then members[c] else []) + [name]];
      assert names[..k + 1] == names[..k] + [name];
      GatherOne(cohortOf, names[..k], name, order0, members0, order, members);
    }
    assert names[..|leaves|] == names;
    blocks := order;
    out := [];
    for b := 0 to |order|
      invariant out == Flatten(cohortOf, names, order[..b])
    {
      assert order[..b + 1][..b] == order[..b] && order[b] in order;
      out := out + members[order[b]];
    }
    assert order[..|order|] == order;
  }

  /** The seriated cluster names: those of the leaves in dendrogram order, gathered into blocks. */
  method Seriate(profiles: seq<ClusterProfile>, dist: array2<real>, cohortOf: map<string, string>)
    returns (out: seq<string>, ghost merges: seq<Merge>, ghost leaves: seq<int>, ghost blocks: seq<string>,
             ghost at: seq<nat>)
    requires profiles != [] && Square(dist, |profiles|) && Symmetric(|profiles|, Entries(dist))
    ensures AverageLinkage(Entries(dist), |profiles|, merges)
    ensures |merges| < |profiles| - 1 ==> Stuck(Entries(dist), |profiles|, merges)
    ensures LeafOrdered(merges, |profiles|, leaves) && Points(leaves, |profiles|)
    ensures var names := NamesOf(profiles, leaves);
            && BlockOrder(cohortOf, names, blocks) && out == Flatten(cohortOf, names, blocks)
            && (forall i: nat :: i in at <==> i < |names|) && InOrder(cohortOf, names, out, at)
    ensures multiset(out) == multiset(AllNames(profiles))
  {
    var ms := BuildDendrogram(|profiles|, dist);
    var order := LeafOrder(ms, |profiles|);
    merges, leaves := ms, order;
    forall k | 0 <= k < |order| ensures 0 <= order[k] < |profiles| {
      assert order[k] in order;
    }
    out, blocks := Gather(profiles, order, cohortOf, NamesOf(profiles, order));
    SeriateConserves(cohortOf, NamesOf(profiles, order), blocks);
    at := SeriatedInOrder(cohortOf, NamesOf(profiles, order), blocks);
    NamesConserved(profiles, order);
  }

  /** The names of all profiles, in input order. */
  function AllNames(profiles: seq<ClusterProfile>): (names: seq<string>)
    ensures |names| == |profiles|
  {
    seq(|profiles|, i requires 0 <= i < |profiles| => profiles[i].name)
  }

  /** A permutation of the points names every profile. */
  lemma NamesConserved(profiles: seq<ClusterProfile>, leaves: seq<int>)
    requires Permutation(leaves, |profiles|) && Points(leaves, |profiles|)
    ensures multiset(NamesOf(profiles, leaves)) == multiset(AllNames(profiles))
  {
    var all := seq(|profiles|, i => i);
    forall i ensures i in all <==> i in leaves {
      if 0 <= i < |profiles| { assert all[i] == i; }
    }
    SameValues(leaves, all);
    NamesFollow(profiles, leaves, all);
    assert NamesOf(profiles, all) == AllNames(profiles);
  }

  /** Listings of the same points name the same profiles. */
  lemma {:induction false} NamesFollow(profiles: seq<ClusterProfile>, a: seq<int>, b: seq<int>)
    requires Points(a, |profiles|) && Points(b, |profiles|) && multiset(a) == multiset(b)
    ensures multiset(NamesOf(profiles, a)) == multiset(NamesOf(profiles, b))
  {
    if a == [] {
      assert |multiset(b)| == 0;
    } else {
      hide NamesOf;
      var k := |a| - 1;
      var i := MatchLast(a, b);
      NamesFollow(profiles, a[..k], b[..i] + b[i + 1..]);
      NamesWithout(profiles, a, k);
      NamesWithout(profiles, b, i);
      assert a[..k] + a[k + 1..] == a[..k];
    }
  }

  /** Leaving a point out leaves its name out. */
  lemma NamesWithout(profiles: seq<ClusterProfile>, points: seq<int>, i: nat)
    requires Points(points, |profiles|) && i < |points|
    ensures Points(points[..i] + points[i + 1..], |profiles|)
    ensures multiset(NamesOf(profiles, points)) ==
            multiset(NamesOf(profiles, points[..i] + points[i + 1..])) + multiset{profiles[points[i]].name}
  {
    var whole, parts := NamesOf(profiles, points), NamesOf(profiles, points[..i] + points[i + 1..]);
    assert parts == whole[..i] + whole[i + 1..];
    WithoutEntry(whole, i);
    assert whole[i] in multiset(whole);
  }

  /** The names of the profiles, in leaf order. */
  ghost function NamesOf(profiles: seq<ClusterProfile>, leaves: seq<int>): (names: seq<string>)
    requires Points(leaves, |profiles|)
    ensures |names| == |leaves| && forall k :: 0 <= k < |leaves| ==> names[k] == profiles[leaves[k]].name
  {
    seq(|leaves|, k requires 0 <= k < |leaves| => profiles[leaves[k]].name)
  }

  // ----- What blocks mean

  /** A cohort's members are its names, each as often as listed. */
  lemma {:induction false} MembersCount(cohortOf: map<string, string>, names: seq<string>, c: string, x: string)
    ensures multiset(Members(cohortOf, names, c))[x] ==
              if CohortName(cohortOf, x) == c then multiset(names)[x] else 0
  {
    if names != [] {
      var k := |names| - 1;
      MembersCount(cohortOf, names[..k], c, x);
      CountWithLast(names, x);
      var last := if CohortName(cohortOf, names[k]) == c then [names[k]] else [];
      assert Members(cohortOf, names, c) == Members(cohortOf, names[..k], c) + last;
      assert multiset(last)[x] == if CohortName(cohortOf, x) == c && names[k] == x then 1 else 0;
    }
  }

  lemma CountWithLast<T>(s: seq<T>, x: T)
    requires s != []
    ensures multiset(s)[x] == multiset(s[..|s| - 1])[x] + if s[|s| - 1] == x then 1 else 0
  {
    assert s == s[..|s| - 1] + [s[|s| - 1]];
  }

  /** How often each name stands in the blocks. */
  lemma {:induction false} FlattenCounts(cohortOf: map<string, string>, names: seq<string>, blocks: seq<string>,
                                         x: string)
    requires forall i, j :: 0 <= i < j < |blocks| ==> blocks[i] != blocks[j]
    ensures multiset(Flatten(cohortOf, names, blocks))[x] ==
            if CohortName(cohortOf, x) in blocks then multiset(names)[x] else 0
  {
    hide Members, CohortName;
    if blocks != [] {
      var k := |blocks| - 1;
      var head, last := Flatten(cohortOf, names, blocks[..k]), Members(cohortOf, names, blocks[k]);
      assert Flatten(cohortOf, names, blocks) == head + last;
      FlattenCounts(cohortOf, names, blocks[..k], x);
      MembersCount(cohortOf, names, blocks[k], x);
      assert blocks == blocks[..k] + [blocks[k]];
    }
  }

  /** Seriating permutes the clusters. */
  lemma SeriateConserves(cohortOf: map<string, string>, names: seq<string>, blocks: seq<string>)
    requires BlockOrder(cohortOf, names, blocks)
    ensures multiset(Flatten(cohortOf, names, blocks)) == multiset(names)
  {
    forall x ensures multiset(Flatten(cohortOf, names, blocks))[x] == multiset(names)[x] {
      FlattenCounts(cohortOf, names, blocks, x);
      if x in multiset(names) {
        assert x in names;
        var k :| 0 <= k < |names| && names[k] == x;
        assert CohortName(cohortOf, names[k]) in blocks;
      }
    }
  }

  /** Every cohort is one run: before and after it no cluster of the cohort stands, and inside it its
      members keep leaf order. */
  lemma {:induction false} CohortIsOneRun(cohortOf: map<string, string>, names: seq<string>, blocks: seq<string>,
                                          b: nat) returns (left: seq<string>, right: seq<string>)
    requires forall i, j :: 0 <= i < j < |blocks| ==> blocks[i] != blocks[j]
    requires b < |blocks|
    ensures Flatten(cohortOf, names, blocks) == left + Members(cohortOf, names, blocks[b]) + right
    ensures forall x :: x in left || x in right ==> CohortName(cohortOf, x) != blocks[b]
  {
    hide Members, CohortName;
    var k := |blocks| - 1;
    assert Flatten(cohortOf, names, blocks) ==
           Flatten(cohortOf, names, blocks[..k]) + Members(cohortOf, names, blocks[k]);
    if b == k {
      left, right := Flatten(cohortOf, names, blocks[..k]), [];
      forall x | x in left ensures CohortName(cohortOf, x) != blocks[b] {
        FlattenCounts(cohortOf, names, blocks[..k], x);
        assert multiset(left)[x] > 0;
      }
    } else {
      left, right := CohortIsOneRun(cohortOf, names, blocks[..k], b);
      right := right + Members(cohortOf, names, blocks[k]);
      var last := Members(cohortOf, names, blocks[k]);
      forall x | x in last ensures CohortName(cohortOf, x) != blocks[b] {
        MembersCount(cohortOf, names, blocks[k], x);
        assert multiset(last)[x] > 0;
      }
    }
  }

  // ----- The whole order

  /** Where the cohort's names stand, in order. */
  lemma {:induction false} CohortIndices(cohortOf: map<string, string>, names: seq<string>, c: string)
    returns (at: seq<nat>)
    ensures forall i: nat :: i in at <==> i < |names| && CohortName(cohortOf, names[i]) == c
    ensures forall k, l :: 0 <= k < l < |at| ==> at[k] < at[l]
    ensures |at| == |Members(cohortOf, names, c)|
    ensures forall k :: 0 <= k < |at| ==> at[k] < |names| && names[at[k]] == Members(cohortOf, names, c)[k]
  {
    hide CohortName;
    at := [];
    if names != [] {
      var last := |names| - 1;
      at := CohortIndices(cohortOf, names[..last], c);
      forall k | 0 <= k < |at| ensures at[k] < last {
        assert at[k] in at;
      }
      if CohortName(cohortOf, names[last]) == c { at := at + [last]; }
    }
  }

  /** The cohort of the name at i stands before that of the name at j: it appears first, or they are one and i is
      before j. */
  ghost predicate Precedes(cohortOf: map<string, string>, names: seq<string>, i: nat, j: nat)
    requires i < |names| && j < |names|
  {
    var c, d := CohortName(cohortOf, names[i]), CohortName(cohortOf, names[j]);
    if c == d then i < j else AppearsBefore(cohortOf, names, c, d)
  }

  /** Cohort c has a name before any of d. */
  ghost predicate AppearsBefore(cohortOf: map<string, string>, names: seq<string>, c: string, d: string) {
    exists f :: 0 <= f < |names| && CohortName(cohortOf, names[f]) == c && !Appears(cohortOf, names[..f + 1], d)
  }

  lemma {:induction false} FirstName(cohortOf: map<string, string>, names: seq<string>, d: string) returns (k: nat)
    requires Appears(cohortOf, names, d)
    ensures k < |names| && CohortName(cohortOf, names[k]) == d && !Appears(cohortOf, names[..k], d)
  {
    k := |names| - 1;
    if Appears(cohortOf, names[..k], d) {
      k := FirstName(cohortOf, names[..k], d);
      assert names[..|names| - 1][..k] == names[..k];
    }
  }

  lemma BlocksAppear(cohortOf: map<string, string>, names: seq<string>, blocks: seq<string>, i: nat, j: nat)
    requires BlockOrder(cohortOf, names, blocks) && i < j < |blocks|
    ensures AppearsBefore(cohortOf, names, blocks[i], blocks[j])
  {
    assert blocks[j] in blocks;
    var k := FirstName(cohortOf, names, blocks[j]);
    assert Appears(cohortOf, names[..k], blocks[i]);
    var f :| 0 <= f < k && CohortName(cohortOf, names[..k][f]) == blocks[i];
    var early := names[..f + 1];
    forall g | 0 <= g < |early| ensures CohortName(cohortOf, early[g]) != blocks[j] {
      assert names[..k][g] == names[g];
    }
  }

  /** at says where each entry of out comes from, cohort by cohort as they first appear. */
  ghost predicate InOrder(cohortOf: map<string, string>, names: seq<string>, out: seq<string>, at: seq<nat>) {
    && |at| == |out| && (forall k :: 0 <= k < |at| ==> at[k] < |names| && out[k] == names[at[k]])
    && (forall k, l :: 0 <= k < l < |at| ==> Precedes(cohortOf, names, at[k], at[l]))
  }

  lemma InOrderJoined(cohortOf: map<string, string>, names: seq<string>, out: seq<string>, at: seq<nat>,
                      out': seq<string>, at': seq<nat>)
    requires InOrder(cohortOf, names, out, at) && InOrder(cohortOf, names, out', at')
    requires forall i, j :: i in at && j in at' ==> Precedes(cohortOf, names, i, j)
    ensures InOrder(cohortOf, names, out + out', at + at')
  {
    hide Precedes;
    forall k, l | 0 <= k < l < |at + at'| ensures Precedes(cohortOf, names, (at + at')[k], (at + at')[l]) {
      if k < |at| && l >= |at| {
        assert at[k] in at && at'[l - |at|] in at';
      }
    }
  }

  /** The blocks so far take every name of their cohorts, in order. */
  lemma {:induction false} BlocksInOrder(cohortOf: map<string, string>, names: seq<string>, blocks: seq<string>, b: nat)
    returns (at: seq<nat>)
    requires BlockOrder(cohortOf, names, blocks) && b <= |blocks|
    ensures forall i: nat :: i in at <==> i < |names| && CohortName(cohortOf, names[i]) in blocks[..b]
    ensures InOrder(cohortOf, names, Flatten(cohortOf, names, blocks[..b]), at)
  {
    hide CohortName, Members, BlockOrder, AppearsBefore;
    at := [];
    if b > 0 {
      var c := blocks[b - 1];
      var before := BlocksInOrder(cohortOf, names, blocks, b - 1);
      var more := CohortIndices(cohortOf, names, c);
      forall i, j | i in before && j in more ensures Precedes(cohortOf, names, i, j) {
        EarlierBlock(cohortOf, names, blocks, b - 1, i, j);
      }
      InOrderJoined(cohortOf, names, Flatten(cohortOf, names, blocks[..b - 1]), before, Members(cohortOf, names, c),
                    more);
      at := before + more;
      assert blocks[..b][..b - 1] == blocks[..b - 1] && blocks[..b] == blocks[..b - 1] + [c];
    }
  }

  lemma EarlierBlock(cohortOf: map<string, string>, names: seq<string>, blocks: seq<string>, b: nat, i: nat, j: nat)
    requires BlockOrder(cohortOf, names, blocks) && b < |blocks| && i < |names| && j < |names|
    requires CohortName(cohortOf, names[i]) in blocks[..b] && CohortName(cohortOf, names[j]) == blocks[b]
    ensures Precedes(cohortOf, names, i, j)
  {
    hide AppearsBefore;
    var k :| 0 <= k < b && blocks[k] == CohortName(cohortOf, names[i]);
    BlocksAppear(cohortOf, names, blocks, k, b);
  }

  /** The seriated order: every name once, by the first appearance of its cohort and then by its own place. */
  lemma SeriatedInOrder(cohortOf: map<string, string>, names: seq<string>, blocks: seq<string>) returns (at: seq<nat>)
    requires BlockOrder(cohortOf, names, blocks)
    ensures forall i: nat :: i in at <==> i < |names|
    ensures InOrder(cohortOf, names, Flatten(cohortOf, names, blocks), at)
  {
    at := BlocksInOrder(cohortOf, names, blocks, |blocks|);
    assert blocks[..|blocks|] == blocks;
    forall i: nat | i < |names| ensures CohortName(cohortOf, names[i]) in blocks {
      assert Appears(cohortOf, names, CohortName(cohortOf, names[i]));
    }
  }
}
