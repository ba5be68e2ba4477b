/** Assign of internal/cohort/cohort.go: every cluster lands in exactly one cohort,
    tagged ones under their tag, the rest in one fleet cohort or in auto cohorts. */
module Cohorts {
  import opened ClassicalMds
  import opened CohortCut
  import opened SmallCohorts
  import opened SetFacts
  import opened Sorting

  datatype Source = Auto | Fleet | Tagged

  datatype Cohort = Cohort(name: string, source: Source, clusters: seq<string>)

  /** Zero means the package default. */
  datatype Options = Options(minClusters: int, minCohortSize: int, maxCohorts: int)

  const DEFAULT_MIN_CLUSTERS := 6
  const DEFAULT_MIN_COHORT_SIZE := 3
  const DEFAULT_MAX_COHORTS := 8

  function SourceRank(s: Source): nat {
    match s case Auto => 0 case Fleet => 1 case Tagged => 2
  }

  /** Cohorts by source, then name. */
  /** How the source is written. */
  ghost function SourceName(s: Source): string {
    match s case Auto => "auto" case Fleet => "fleet" case Tagged => "tagged"
  }

  lemma FirstLetters(s: string, t: string)
    requires s != "" && t != "" && s[0] != t[0]
    ensures StringLess(s, t) <==> s[0] < t[0]
  {
  }

  /** Cohorts are ordered by source, as it is written, and then by name. */
  lemma CohortLessMeans(a: Cohort, b: Cohort)
    ensures CohortLess(a, b) <==>
              || StringLess(SourceName(a.source), SourceName(b.source))
              || (SourceName(a.source) == SourceName(b.source) && StringLess(a.name, b.name))
  {
    StringsTotal();
    if a.source != b.source {
      FirstLetters(SourceName(a.source), SourceName(b.source));
    }
  }

  predicate CohortLess(a: Cohort, b: Cohort) {
    SourceRank(a.source) < SourceRank(b.source) || (a.source == b.source && StringLess(a.name, b.name))
  }

  lemma CohortsOrdered()
    ensures WeakOrder(CohortLess)
  {
    hide StringLess;
    StringsTotal();
  }

  // ----- Names by label

  /** The names whose label is l, in order. */
  ghost function Picked<L>(labels: seq<L>, names: seq<string>, l: L): seq<string>
    requires |labels| == |names|
  {
    if labels == [] then []
    else
      var k := |labels| - 1;
      Picked(labels[..k], names[..k], l) + (if labels[k] == l then [names[k]] else [])
  }

  /** The names whose label is among ls. */
  ghost function PickedAny<L>(labels: seq<L>, names: seq<string>, ls: set<L>): multiset<string>
    requires |labels| == |names|
  {
    if labels == [] then multiset{}
    else
      var k := |labels| - 1;
      PickedAny(labels[..k], names[..k], ls) + (if labels[k] in ls then multiset{names[k]} else multiset{})
  }

  lemma {:induction false} PickedOneMore<L>(labels: seq<L>, names: seq<string>, ls: set<L>, l: L)
    requires |labels| == |names| && l !in ls
    ensures PickedAny(labels, names, ls + {l}) == PickedAny(labels, names, ls) + multiset(Picked(labels, names, l))
  {
    if labels != [] {
      var k := |labels| - 1;
      PickedOneMore(labels[..k], names[..k], ls, l);
    }
  }

  lemma {:induction false} PickedNone<L>(labels: seq<L>, names: seq<string>)
    requires |labels| == |names|
    ensures PickedAny(labels, names, {}) == multiset{}
  {
    if labels != [] {
      var k := |labels| - 1;
      PickedNone(labels[..k], names[..k]);
    }
  }

  lemma {:induction false} PickedAll<L>(labels: seq<L>, names: seq<string>, ls: set<L>)
    requires |labels| == |names| && forall k :: 0 <= k < |labels| ==> labels[k] in ls
    ensures PickedAny(labels, names, ls) == multiset(names)
  {
    if labels != [] {
      var k := |labels| - 1;
      PickedAll(labels[..k], names[..k], ls);
      assert names == names[..k] + [names[k]];
    }
  }

  /** The names under each label, in order. */
  method GroupBy<L(==)>(labels: seq<L>, names: seq<string>) returns (m: map<L, seq<string>>)
    requires |labels| == |names|
    ensures forall l :: l in m <==> l in labels
    ensures forall l :: l in m ==> m[l] == Picked(labels, names, l) && m[l] != []
  {
    m := map[];
    for i := 0 to |labels|
      invariant forall l :: l in m <==> l in labels[..i]
      invariant forall l :: l in m ==> m[l] == Picked(labels[..i], names[..i], l) && m[l] != []
      invariant forall l :: l !in m ==> Picked(labels[..i], names[..i], l) == []
    {
      var l := labels[i];
      assert labels[..i + 1] == labels[..i] + [l] && labels[..i + 1][..i] == labels[..i];
      assert names[..i + 1][..i] == names[..i];
      m := m[l := (if l in m then m[l] else []) + [names[i]]];
    }
    assert labels[..|labels|] == labels && names[..|names|] == names;
  }

  // ----- Cohorts and what they hold

  /** All names the items list, with multiplicity. */
  ghost function Listed<T>(list: T -> seq<string>, items: seq<T>): multiset<string> {
    if items == [] then multiset{}
    else Listed(list, items[..|items| - 1]) + multiset(list(items[|items| - 1]))
  }

  lemma ListedOneMore<T>(list: T -> seq<string>, items: seq<T>, x: T)
    ensures Listed(list, items + [x]) == Listed(list, items) + multiset(list(x))
  {
    assert (items + [x])[..|items|] == items;
  }

  lemma {:induction false} ListedConcat<T>(list: T -> seq<string>, a: seq<T>, b: seq<T>)
    ensures Listed(list, a + b) == Listed(list, a) + Listed(list, b)
  {
    if b == [] {
      assert a + b == a;
    } else {
      ListedConcat(list, a, b[..|b| - 1]);
      assert (a + b)[..|a + b| - 1] == a + b[..|b| - 1];
    }
  }

  lemma ListedWithout<T>(list: T -> seq<string>, b: seq<T>, i: nat)
    requires i < |b|
    ensures Listed(list, b) == Listed(list, b[..i] + b[i + 1..]) + multiset(list(b[i]))
  {
    hide Listed;
    assert b == b[..i] + [b[i]] + b[i + 1..];
    ListedOneMore(list, b[..i], b[i]);
    ListedConcat(list, b[..i] + [b[i]], b[i + 1..]);
    ListedConcat(list, b[..i], b[i + 1..]);
  }

  /** What items list does not depend on their order. */
  lemma {:induction false} ListedPermuted<T>(list: T -> seq<string>, a: seq<T>, b: seq<T>)
    requires multiset(a) == multiset(b)
    ensures Listed(list, a) == Listed(list, b)
  {
    if a == [] {
      assert |multiset(b)| == 0;
    } else {
      var i := MatchLast(a, b);
      ListedWithout(list, b, i);
      ListedPermuted(list, a[..|a| - 1], b[..i] + b[i + 1..]);
    }
  }

  function ClustersIn(c: Cohort): seq<string> {
    c.clusters
  }

  /** All cluster names of the cohorts, with multiplicity. */
  ghost function Held(cohorts: seq<Cohort>): multiset<string> {
    Listed(ClustersIn, cohorts)
  }

  function NamesOf(profiles: seq<ClusterProfile>): (names: seq<string>)
    ensures |names| == |profiles|
  {
    seq(|profiles|, i requires 0 <= i < |profiles| => profiles[i].name)
  }

  function TagsOf(profiles: seq<ClusterProfile>): (tags: seq<string>)
    ensures |tags| == |profiles|
  {
    seq(|profiles|, i requires 0 <= i < |profiles| => profiles[i].tag)
  }

  /** part lists what stands at the increasing places of all. */
  ghost predicate PlacedAt(all: seq<ClusterProfile>, part: seq<ClusterProfile>, places: seq<int>) {
    && |places| == |part| && (forall i, j :: 0 <= i < j < |places| ==> places[i] < places[j])
    && forall k :: 0 <= k < |part| ==> 0 <= places[k] < |all| && part[k] == all[places[k]]
  }

  lemma NonePlaced()
    ensures PlacedAt([], [], [])
  {
  }

  lemma PlacedOneMore(all: seq<ClusterProfile>, i: nat, part: seq<ClusterProfile>, places: seq<int>)
    requires i < |all| && PlacedAt(all[..i], part, places)
    ensures PlacedAt(all[..i + 1], part, places) && PlacedAt(all[..i + 1], part + [all[i]], places + [i])
  {
  }

  /** Profiles with a tag, and profiles without, each in input order: the places of the two lists are increasing
      and together are all places. */
  method SplitByTag(profiles: seq<ClusterProfile>)
    returns (tagged: seq<ClusterProfile>, untagged: seq<ClusterProfile>, ghost at: seq<int>, ghost off: seq<int>)
    ensures multiset(profiles) == multiset(tagged) + multiset(untagged)
    ensures forall p :: p in tagged ==> p.tag != ""
    ensures forall p :: p in untagged ==> p.tag == ""
    ensures PlacedAt(profiles, tagged, at) && PlacedAt(profiles, untagged, off)
    ensures |at| + |off| == |profiles|
  {
    hide PlacedAt;
    tagged, untagged, at, off := [], [], [], [];
    NonePlaced();
    assert profiles[..0] == [];
    for i := 0 to |profiles|
      invariant PlacedAt(profiles[..i], tagged, at) && PlacedAt(profiles[..i], untagged, off) && |at| + |off| == i
      invariant multiset(profiles[..i]) == multiset(tagged) + multiset(untagged)
      invariant forall p :: p in tagged ==> p.tag != ""
      invariant forall p :: p in untagged ==> p.tag == ""
    {
      assert profiles[..i + 1] == profiles[..i] + [profiles[i]];
      PlacedOneMore(profiles, i, tagged, at);
      PlacedOneMore(profiles, i, untagged, off);
      if profiles[i].tag != "" {
        tagged, at := tagged + [profiles[i]], at + [i];
        continue;
      }
      untagged, off := untagged + [profiles[i]], off + [i];
    }
    assert profiles[..|profiles|] == profiles;
  }

  /** One cohort per tag, holding the names under it. */
  ghost predicate TagCohort(tags: seq<string>, names: seq<string>, c: Cohort)
    requires |tags| == |names|
  {
    c.source == Tagged && c.name in tags && multiset(c.clusters) == multiset(Picked(tags, names, c.name))
  }

  /** out holds one cohort for each of the tags done. */
  ghost predicate TagsDone(tags: seq<string>, names: seq<string>, done: set<string>, out: seq<Cohort>)
    requires |tags| == |names|
  {
    && Held(out) == PickedAny(tags, names, done)
    && (forall c :: c in out ==> TagCohort(tags, names, c))
    && (forall tag :: tag in done ==> Named(out, tag))
  }

  lemma NamedMore(cohorts: seq<Cohort>, c: Cohort, name: string)
    requires Named(cohorts, name) || c.name == name
    ensures Named(cohorts + [c], name)
  {
    if c.name == name {
      assert c in cohorts + [c];
    } else {
      var d :| d in cohorts && d.name == name;
      assert d in cohorts + [c];
    }
  }

  lemma TagAdded(tags: seq<string>, names: seq<string>, done: set<string>, out: seq<Cohort>, c: Cohort)
    requires |tags| == |names| && TagsDone(tags, names, done, out)
    requires TagCohort(tags, names, c) && c.name !in done
    ensures TagsDone(tags, names, done + {c.name}, out + [c])
  {
    hide Listed, PickedAny, Named;
    PickedOneMore(tags, names, done, c.name);
    ListedOneMore(ClustersIn, out, c);
    forall tag | tag in done + {c.name}
      ensures Named(out + [c], tag)
    {
      NamedMore(out, c, tag);
    }
  }

  /** One cohort per tag value, in map order. */
  method TaggedCohorts(profiles: seq<ClusterProfile>) returns (out: seq<Cohort>)
    ensures Held(out) == multiset(NamesOf(profiles))
    ensures forall c :: c in out ==> TagCohort(TagsOf(profiles), NamesOf(profiles), c)
    ensures forall tag :: tag in TagsOf(profiles) ==> Named(out, tag)
  {
    hide Named, PickedAny;
    var tags, names := TagsOf(profiles), NamesOf(profiles);
    var byTag := GroupBy(tags, names);
    out := [];
    var todo := byTag.Keys;
    PickedNone(tags, names);
    assert byTag.Keys - todo == {};
    while todo != {}
      invariant todo <= byTag.Keys
      invariant TagsDone(tags, names, byTag.Keys - todo, out)
    {
      ghost var some := Member(todo);
      var tag :| tag in todo;
      ghost var done := byTag.Keys - todo;
      TagAdded(tags, names, done, out, Cohort(tag, Tagged, byTag[tag]));
      todo := todo - {tag};
      assert byTag.Keys - todo == done + {tag};
      out := out + [Cohort(tag, Tagged, byTag[tag])];
    }
    PickedAll(tags, names, byTag.Keys);
    assert byTag.Keys - todo == byTag.Keys;
  }

  // ----- Auto cohorts

  /** The number in decimal. */
  function Digits(n: nat): string {
    if n < 10 then [('0' as int + n) as char] else Digits(n / 10) + [('0' as int + n % 10) as char]
  }

  /** The number a text of decimal digits stands for. */
  ghost function Numeral(s: string): int {
    if s == "" then 0 else 10 * Numeral(s[..|s| - 1]) + (s[|s| - 1] as int - '0' as int)
  }

  /** Digits gives the decimal numeral of the number, without leading zeros. */
  lemma {:induction false} DigitsMean(n: nat)
    ensures Numeral(Digits(n)) == n
    ensures forall i :: 0 <= i < |Digits(n)| ==> '0' <= Digits(n)[i] <= '9'
    ensures Digits(n) != "" && (n > 0 ==> Digits(n)[0] != '0')
  {
    var s := Digits(n);
    if n < 10 {
      assert s[..0] == "";
    } else {
      DigitsMean(n / 10);
      assert s[..|s| - 1] == Digits(n / 10);
    }
  }

  /** A group's members, sorted, with the first of them. */
  datatype Bucket = Bucket(members: seq<string>, first: string)

  function MembersOf(b: Bucket): seq<string> {
    b.members
  }

  predicate BucketLess(a: Bucket, b: Bucket) {
    StringLess(a.first, b.first)
  }

  /** The members are the names of one group. */
  ghost predicate OneGroupsNames(groups: seq<int>, names: seq<string>, members: seq<string>)
    requires |groups| == |names|
  {
    exists g :: g in groups && multiset(members) == multiset(Picked(groups, names, g))
  }

  /** The bucket holds one group's names, sorted, with the first of them. */
  ghost predicate Bucketed(groups: seq<int>, names: seq<string>, b: Bucket)
    requires |groups| == |names|
  {
    && OneGroupsNames(groups, names, b.members) && Ascending(StringLess, b.members)
    && b.members != [] && b.first == b.members[0]
  }

  lemma NewBucket(groups: seq<int>, names: seq<string>, g: int, listed: seq<string>)
    requires |groups| == |names| && g in groups && listed == Picked(groups, names, g) && listed != []
    ensures var members := Sorted(StringLess, listed);
            && multiset(members) == multiset(listed) && members != []
            && Bucketed(groups, names, Bucket(members, members[0]))
  {
    hide Picked, StringLess;
    StringsTotal();
    SortedAscending(StringLess, listed);
    assert |multiset(Sorted(StringLess, listed))| == |listed|;
  }

  /** One bucket per group, in map order. */
  method GroupBuckets(groups: seq<int>, names: seq<string>) returns (buckets: seq<Bucket>)
    requires |groups| == |names|
    ensures Listed(MembersOf, buckets) == multiset(names)
    ensures forall b :: b in buckets ==> Bucketed(groups, names, b)
  {
    hide Listed, PickedAny, Picked, Bucketed, StringLess, Sorted;
    var byGroup := GroupBy(groups, names);
    buckets := [];
    var todo := byGroup.Keys;
    PickedNone(groups, names);
    HeldNothing();
    assert byGroup.Keys - todo == {};
    while todo != {}
      invariant todo <= byGroup.Keys
      invariant Listed(MembersOf, buckets) == PickedAny(groups, names, byGroup.Keys - todo)
      invariant forall b :: b in buckets ==> Bucketed(groups, names, b)
    {
      ghost var some := Member(todo);
      var g :| g in todo;
      ghost var done := byGroup.Keys - todo;
      var members := Sorted(StringLess, byGroup[g]);
      NewBucket(groups, names, g, byGroup[g]);
      PickedOneMore(groups, names, done, g);
      ListedOneMore(MembersOf, buckets, Bucket(members, members[0]));
      todo := todo - {g};
      assert byGroup.Keys - todo == done + {g};
      buckets := buckets + [Bucket(members, members[0])];
    }
    PickedAll(groups, names, byGroup.Keys);
    assert byGroup.Keys - todo == byGroup.Keys;
  }

  /** The cohorts auto-1, auto-2, ..., by their first members. */
  ghost predicate Numbered(cohorts: seq<Cohort>) {
    && (forall i :: 0 <= i < |cohorts| ==> cohorts[i].name == "auto-" + Digits(i + 1) && cohorts[i].clusters != [])
    && (forall i, j :: 0 <= i < j < |cohorts| ==> !StringLess(cohorts[j].clusters[0], cohorts[i].clusters[0]))
  }

  lemma BucketsOrdered()
    ensures WeakOrder(BucketLess)
  {
    hide StringLess;
    StringsTotal();
  }

  /** The buckets in the order of their first members. */
  method SortBuckets(unordered: seq<Bucket>) returns (buckets: seq<Bucket>)
    ensures Listed(MembersOf, buckets) == Listed(MembersOf, unordered)
    ensures (forall b :: b in buckets <==> b in unordered) && Ascending(BucketLess, buckets)
  {
    buckets := Sorted(BucketLess, unordered);
    BucketsOrdered();
    SortedAscending(BucketLess, unordered);
    ListedPermuted(MembersOf, unordered, buckets);
    SameMembers(unordered, buckets);
  }

  /** Cohorts auto-1, auto-2, ... in the order of the buckets' first members. */
  method NameAutoCohorts(groups: seq<int>, profiles: seq<ClusterProfile>) returns (out: seq<Cohort>)
    requires |groups| == |profiles|
    ensures Held(out) == multiset(NamesOf(profiles)) && Numbered(out)
    ensures forall c :: c in out ==>
              c.source == Auto && OneGroupsNames(groups, NamesOf(profiles), c.clusters) && InOrder(c)
  {
    hide OneGroupsNames, StringLess, Digits, InOrder, Numbered, Ascending, Listed;
    HeldNothing();
    var unordered := GroupBuckets(groups, NamesOf(profiles));
    var buckets := SortBuckets(unordered);
    out := [];
    for i := 0 to |buckets|
      invariant |out| == i && Held(out) == Listed(MembersOf, buckets[..i])
      invariant forall k :: 0 <= k < i ==> out[k] == Cohort("auto-" + Digits(k + 1), Auto, buckets[k].members)
    {
      assert buckets[..i + 1] == buckets[..i] + [buckets[i]];
      ListedOneMore(MembersOf, buckets[..i], buckets[i]);
      var c := Cohort("auto-" + Digits(i + 1), Auto, buckets[i].members);
      ListedOneMore(ClustersIn, out, c);
      out := out + [c];
    }
    assert buckets[..|buckets|] == buckets;
    AutoCohortsNumbered(buckets, out);
    forall c | c in out
      ensures c.source == Auto && OneGroupsNames(groups, NamesOf(profiles), c.clusters) && InOrder(c)
    {
      var k :| 0 <= k < |out| && out[k] == c;
      BucketInOrder(groups, NamesOf(profiles), buckets[k], c);
    }
  }

  lemma AutoCohortsNumbered(buckets: seq<Bucket>, out: seq<Cohort>)
    requires Ascending(BucketLess, buckets) && |out| == |buckets|
    requires forall b :: b in buckets ==> b.members != [] && b.first == b.members[0]
    requires forall k :: 0 <= k < |out| ==> out[k] == Cohort("auto-" + Digits(k + 1), Auto, buckets[k].members)
    ensures Numbered(out)
  {
    hide StringLess, Digits;
    forall i, j | 0 <= i < j < |out|
      ensures !StringLess(out[j].clusters[0], out[i].clusters[0])
    {
      assert buckets[i] in buckets && buckets[j] in buckets;
      assert !BucketLess(buckets[j], buckets[i]);
    }
  }

  lemma HeldNothing()
    ensures Held([]) == Listed(MembersOf, []) == multiset{}
  {
  }

  lemma BucketInOrder(groups: seq<int>, names: seq<string>, b: Bucket, c: Cohort)
    requires |groups| == |names| && Bucketed(groups, names, b) && c.clusters == b.members
    ensures OneGroupsNames(groups, names, c.clusters) && InOrder(c)
  {
  }

  lemma {:induction false} PickedSize(groups: seq<int>, names: seq<string>, g: int)
    requires |groups| == |names|
    ensures |Picked(groups, names, g)| == CountOf(groups, g)
  {
    if groups != [] {
      var k := |groups| - 1;
      PickedSize(groups[..k], names[..k], g);
    }
  }

  /** The groups of the best cut of the profiles' average-linkage dendrogram. */
  ghost predicate CutOf(sqrt: real -> real, profiles: seq<ClusterProfile>, maxCohorts: int, raw: seq<int>) {
    |raw| == |profiles|
    && (|profiles| >= 2 ==> exists merges, k :: CutByLinkage(sqrt, profiles, maxCohorts, merges, k, raw))
  }

  /** The groups are those of the best cut, folded and renumbered until nothing is left to fold. */
  ghost predicate Clustered(sqrt: real -> real, profiles: seq<ClusterProfile>, maxCohorts: int, minSize: int,
                            groups: seq<int>)
  {
    |groups| == |profiles| &&
    exists raw ::
      && CutOf(sqrt, profiles, maxCohorts, raw) && Coarsens(raw, groups)
      && if minSize <= 1 then groups == raw
         else Settled(sqrt, profiles, groups, minSize) && FoldsTo(sqrt, profiles, minSize, raw, groups)
  }

  ghost predicate FoldsTo(sqrt: real -> real, profiles: seq<ClusterProfile>, minSize: int, raw: seq<int>,
                          groups: seq<int>)
  {
    exists trail, count :: FoldTrail(sqrt, profiles, minSize, raw, trail) && EndsIn(trail, groups, count)
  }

  /** The groups are those of the trail's end, renumbered by first appearance. */
  ghost predicate EndsIn(trail: seq<seq<int>>, groups: seq<int>, count: nat) {
    trail != [] && FirstSeen(trail[|trail| - 1], groups, count)
  }

  lemma {:induction false} PickedEvery(groups: seq<int>, names: seq<string>, g: int)
    requires |groups| == |names| && forall i :: 0 <= i < |groups| ==> groups[i] == g
    ensures Picked(groups, names, g) == names
  {
    if groups != [] {
      var k := |groups| - 1;
      PickedEvery(groups[..k], names[..k], g);
      assert groups[k] == g && names == names[..k] + [names[k]];
    }
  }

  /** Every auto cohort reaches the minimum size, or holds every untagged profile, when distances stay below the
      limit. */
  lemma AutoCohortsReachSize(sqrt: real -> real, profiles: seq<ClusterProfile>, groups: seq<int>, minSize: int,
                             members: seq<string>)
    requires |groups| == |profiles| && Settled(sqrt, profiles, groups, minSize) && AllBelow(sqrt, profiles)
    requires OneGroupsNames(groups, NamesOf(profiles), members)
    ensures |members| >= minSize || multiset(members) == multiset(NamesOf(profiles))
  {
    hide Settled, AllBelow, CountOf, Picked;
    var names := NamesOf(profiles);
    var g :| g in groups && multiset(members) == multiset(Picked(groups, names, g));
    SettledGroups(sqrt, profiles, groups, minSize);
    if OneGroup(groups) {
      PickedEvery(groups, names, g);
    } else {
      PickedSize(groups, names, g);
      assert |members| == |multiset(members)| == |Picked(groups, names, g)|;
    }
  }

  /** Agglomerative cohorts of the untagged profiles. */
  method AutoCohorts(sqrt: real -> real, profiles: seq<ClusterProfile>, maxCohorts: int, minSize: int)
    returns (out: seq<Cohort>, ghost groups: seq<int>)
    ensures |groups| == |profiles| && Held(out) == multiset(NamesOf(profiles))
    ensures forall c :: c in out ==> c.source == Auto && OneGroupsNames(groups, NamesOf(profiles), c.clusters)
    ensures Clustered(sqrt, profiles, maxCohorts, minSize, groups) && Numbered(out)
  {
    hide CutByLinkage, Settled, FoldTrail, FirstSeen, Coarsens;
    var raw, merges, k := Agglomerate(sqrt, profiles, maxCohorts);
    ghost var cut := raw[..];
    assert CutOf(sqrt, profiles, maxCohorts, cut);
    var folded, count, trail := MergeSmallCohorts(sqrt, raw, profiles, minSize);
    groups := folded[..];
    if minSize > 1 {
      assert EndsIn(trail, groups, count);
    }
    out := NameAutoCohorts(folded[..], profiles);
  }

  // ----- Assignment

  /** The same cohort up to the order of its members. */
  ghost predicate SameCohort(c: Cohort, d: Cohort) {
    c.name == d.name && c.source == d.source && multiset(c.clusters) == multiset(d.clusters)
  }

  /** Some cohort of the list is c up to member order. */
  ghost predicate HasTwin(cohorts: seq<Cohort>, c: Cohort) {
    exists d :: d in cohorts && SameCohort(d, c)
  }

  /** Every cohort of a has its twin in b. */
  ghost predicate Covers(a: seq<Cohort>, b: seq<Cohort>) {
    forall c {:trigger HasTwin(b, c)} :: c in a ==> HasTwin(b, c)
  }

  lemma SortedMembersHeld(cohorts: seq<Cohort>, i: nat, sorted: seq<Cohort>, c: Cohort)
    requires i < |cohorts| && Held(sorted) == Held(cohorts[..i]) && SameCohort(cohorts[i], c)
    ensures Held(sorted + [c]) == Held(cohorts[..i + 1])
  {
    hide Listed;
    assert cohorts[..i + 1] == cohorts[..i] + [cohorts[i]];
    ListedOneMore(ClustersIn, sorted, c);
    ListedOneMore(ClustersIn, cohorts[..i], cohorts[i]);
  }

  ghost predicate InOrder(c: Cohort) {
    Ascending(StringLess, c.clusters)
  }

  /** Sorts every member list. */
  method SortMembers(cohorts: seq<Cohort>) returns (sorted: seq<Cohort>)
    ensures Held(sorted) == Held(cohorts) && |sorted| == |cohorts|
    ensures forall k :: 0 <= k < |sorted| ==> SameCohort(cohorts[k], sorted[k]) && InOrder(sorted[k])
  {
    hide Listed, Ascending;
    StringsTotal();
    sorted := [];
    for i := 0 to |cohorts|
      invariant |sorted| == i && Held(sorted) == Held(cohorts[..i])
      invariant forall k :: 0 <= k < i ==> SameCohort(cohorts[k], sorted[k]) && InOrder(sorted[k])
    {
      SortedAscending(StringLess, cohorts[i].clusters);
      var c := cohorts[i].(clusters := Sorted(StringLess, cohorts[i].clusters));
      SortedMembersHeld(cohorts, i, sorted, c);
      sorted := sorted + [c];
    }
    assert cohorts[..|cohorts|] == cohorts;
  }

  lemma SameMembers<T>(a: seq<T>, b: seq<T>)
    requires multiset(a) == multiset(b)
    ensures forall x :: x in a <==> x in b
  {
    forall x ensures x in a <==> x in b {
      assert x in a <==> x in multiset(a);
      assert x in b <==> x in multiset(b);
    }
  }

  /** Sorts every member list, then the cohorts. */
  method Finalize(cohorts: seq<Cohort>) returns (out: seq<Cohort>)
    ensures Held(out) == Held(cohorts) && Covers(cohorts, out) && Covers(out, cohorts) && |out| == |cohorts|
    ensures Ascending(CohortLess, out) && forall c :: c in out ==> InOrder(c)
  {
    hide InOrder, Ascending, SameCohort, Covers, Listed, CohortLess, Sorted;
    var sorted := SortMembers(cohorts);
    out := Sorted(CohortLess, sorted);
    CohortsOrdered();
    SortedAscending(CohortLess, sorted);
    ListedPermuted(ClustersIn, sorted, out);
    SameMembers(sorted, out);
    TwinsBothWays(cohorts, sorted, out);
  }

  lemma TwinsBothWays(cohorts: seq<Cohort>, sorted: seq<Cohort>, out: seq<Cohort>)
    requires |sorted| == |cohorts| && forall k :: 0 <= k < |sorted| ==> SameCohort(cohorts[k], sorted[k])
    requires forall c :: c in sorted <==> c in out
    ensures Covers(cohorts, out) && Covers(out, cohorts)
  {
    forall c | c in out
      ensures HasTwin(cohorts, c)
    {
      var k :| 0 <= k < |sorted| && sorted[k] == c;
      assert cohorts[k] in cohorts && SameCohort(cohorts[k], c);
    }
    forall d | d in cohorts
      ensures HasTwin(out, d)
    {
      var k :| 0 <= k < |cohorts| && cohorts[k] == d;
      assert sorted[k] in out && SameCohort(sorted[k], d);
    }
  }

  function OrDefault(x: int, d: int): int {
    if x == 0 then d else x
  }

  lemma {:induction false} NamesPermuted(a: seq<ClusterProfile>, b: seq<ClusterProfile>)
    requires multiset(a) == multiset(b)
    ensures multiset(NamesOf(a)) == multiset(NamesOf(b))
  {
    NamesListed(a);
    NamesListed(b);
    ListedPermuted(OwnName, a, b);
  }

  function OwnName(p: ClusterProfile): seq<string> {
    [p.name]
  }

  lemma {:induction false} NamesListed(a: seq<ClusterProfile>)
    ensures Listed(OwnName, a) == multiset(NamesOf(a))
  {
    if a != [] {
      var k := |a| - 1;
      NamesListed(a[..k]);
      assert NamesOf(a) == NamesOf(a[..k]) + [a[k].name];
    }
  }

  lemma NamesConcat(a: seq<ClusterProfile>, b: seq<ClusterProfile>)
    ensures multiset(NamesOf(a + b)) == multiset(NamesOf(a)) + multiset(NamesOf(b))
  {
    assert NamesOf(a + b) == NamesOf(a) + NamesOf(b);
  }

  /** Where a cohort's clusters come from: one tag, all untagged profiles of a small fleet, or one
      group of the clustering. */
  ghost predicate Placed(tagged: seq<ClusterProfile>, untagged: seq<ClusterProfile>, groups: seq<int>,
                         minClusters: int, c: Cohort) {
    match c.source
    case Tagged => TagCohort(TagsOf(tagged), NamesOf(tagged), c)
    case Fleet =>
      c.name == "fleet" && 0 < |untagged| < minClusters && multiset(c.clusters) == multiset(NamesOf(untagged))
    case Auto =>
      |untagged| >= minClusters && |groups| == |untagged| && OneGroupsNames(groups, NamesOf(untagged), c.clusters)
  }

  lemma PlacedAlike(tagged: seq<ClusterProfile>, untagged: seq<ClusterProfile>, groups: seq<int>,
                    minClusters: int, d: Cohort, c: Cohort)
    requires SameCohort(d, c) && Placed(tagged, untagged, groups, minClusters, d)
    ensures Placed(tagged, untagged, groups, minClusters, c)
  {
    if d.source == Auto {
      var names := NamesOf(untagged);
      var g :| g in groups && multiset(d.clusters) == multiset(Picked(groups, names, g));
      assert multiset(c.clusters) == multiset(Picked(groups, names, g));
    }
  }

  /** Sorting keeps every placement. */
  lemma PlacedUpToOrder(tagged: seq<ClusterProfile>, untagged: seq<ClusterProfile>, groups: seq<int>,
                        minClusters: int, a: seq<Cohort>, b: seq<Cohort>)
    requires Covers(b, a)
    requires forall c :: c in a ==> Placed(tagged, untagged, groups, minClusters, c)
    ensures forall c :: c in b ==> Placed(tagged, untagged, groups, minClusters, c)
  {
    forall c | c in b
      ensures Placed(tagged, untagged, groups, minClusters, c)
    {
      assert HasTwin(a, c);
      var d :| d in a && SameCohort(d, c);
      PlacedAlike(tagged, untagged, groups, minClusters, d, c);
    }
  }

  /** Sorting keeps every cohort name. */
  lemma NamedUpToOrder(a: seq<Cohort>, b: seq<Cohort>)
    requires Covers(a, b)
    ensures forall d :: d in a ==> Named(b, d.name)
  {
    forall d | d in a
      ensures Named(b, d.name)
    {
      assert HasTwin(b, d);
      var c :| c in b && SameCohort(c, d);
    }
  }

  /** Some cohort has the name. */
  ghost predicate Named(cohorts: seq<Cohort>, name: string) {
    exists c :: c in cohorts && c.name == name
  }

  /** Cohorts for the untagged profiles. */
  method Untagged(sqrt: real -> real, without: seq<ClusterProfile>, minClusters: int, minSize: int, maxCohorts: int)
    returns (out: seq<Cohort>, ghost groups: seq<int>)
    ensures Held(out) == multiset(NamesOf(without))
    ensures forall c :: c in out ==> c.source != Tagged && Placed([], without, groups, minClusters, c)
    ensures |without| >= minClusters && |without| > 0 ==> Clustered(sqrt, without, maxCohorts, minSize, groups)
    ensures (Numbered(out) && (forall c :: c in out ==> c.source == Auto))
            || forall c :: c in out ==> c.source == Fleet
  {
    groups := [];
    if |without| == 0 {
      return [], [];
    }
    if |without| < minClusters {
      var fleet := Cohort("fleet", Fleet, NamesOf(without));
      ListedOneMore(ClustersIn, [], fleet);
      return [fleet], [];
    }
    out, groups := AutoCohorts(sqrt, without, maxCohorts, minSize);
  }

  lemma AllPlaced(tagged: seq<ClusterProfile>, untagged: seq<ClusterProfile>, groups: seq<int>, minClusters: int,
                  a: seq<Cohort>, b: seq<Cohort>)
    requires forall c :: c in a ==> TagCohort(TagsOf(tagged), NamesOf(tagged), c)
    requires forall c :: c in b ==> c.source != Tagged && Placed([], untagged, groups, minClusters, c)
    ensures forall c :: c in a + b ==> Placed(tagged, untagged, groups, minClusters, c)
  {
    forall c | c in a + b
      ensures Placed(tagged, untagged, groups, minClusters, c)
    {
      if c in b { assert Placed([], untagged, groups, minClusters, c); }
    }
  }

  lemma AutoSizes(sqrt: real -> real, tagged: seq<ClusterProfile>, untagged: seq<ClusterProfile>, groups: seq<int>,
                  minClusters: int, maxCohorts: int, minSize: int, out: seq<Cohort>)
    requires forall c :: c in out ==> Placed(tagged, untagged, groups, minClusters, c)
    requires |untagged| >= minClusters && |untagged| > 0 ==> Clustered(sqrt, untagged, maxCohorts, minSize, groups)
    ensures AllBelow(sqrt, untagged) && minSize > 1 ==>
              forall c :: c in out && c.source == Auto ==>
                |c.clusters| >= minSize || multiset(c.clusters) == multiset(NamesOf(untagged))
  {
    hide AllBelow, Settled, CutOf, FoldsTo, OneGroupsNames;
    if AllBelow(sqrt, untagged) && minSize > 1 {
      forall c | c in out && c.source == Auto
        ensures |c.clusters| >= minSize || multiset(c.clusters) == multiset(NamesOf(untagged))
      {
        assert Placed(tagged, untagged, groups, minClusters, c);
        GroupsNotEmpty(groups, NamesOf(untagged), c.clusters);
        AutoCohortsReachSize(sqrt, untagged, groups, minSize, c.clusters);
      }
    }
  }

  lemma GroupsNotEmpty(groups: seq<int>, names: seq<string>, members: seq<string>)
    requires |groups| == |names| && OneGroupsNames(groups, names, members)
    ensures |groups| > 0
  {
  }

  /** out holds exactly these auto cohorts, up to member order. */
  ghost predicate HoldsAutos(out: seq<Cohort>, autos: seq<Cohort>) {
    && (forall c {:trigger HasTwin(out, c)} :: c in autos ==> c.source == Auto && HasTwin(out, c))
    && (forall c {:trigger HasTwin(autos, c)} :: c in out && c.source == Auto ==> HasTwin(autos, c))
  }

  lemma AutosKept(cohorts: seq<Cohort>, others: seq<Cohort>, out: seq<Cohort>) returns (autos: seq<Cohort>)
    requires Covers(cohorts + others, out) && Covers(out, cohorts + others)
    requires (forall c :: c in cohorts ==> c.source == Tagged) && (forall c :: c in others ==> c.source != Tagged)
    requires (Numbered(others) && (forall c :: c in others ==> c.source == Auto))
             || forall c :: c in others ==> c.source == Fleet
    ensures Numbered(autos) && HoldsAutos(out, autos)
  {
    hide Digits, StringLess;
    autos := if Numbered(others) && (forall c :: c in others ==> c.source == Auto) then others else [];
    forall c | c in autos ensures c.source == Auto && HasTwin(out, c) {
      assert c in cohorts + others;
    }
    forall c | c in out && c.source == Auto ensures HasTwin(autos, c) {
      assert HasTwin(cohorts + others, c);
      var d :| d in cohorts + others && SameCohort(d, c);
      assert d in others;
    }
  }

  /** Every profile lands in exactly one cohort: the cohorts hold the profiles' names, no more and no
      less, each cohort placed as its source says, every tag has its cohort, and auto cohorts are the groups of
      the dendrogram's cut, folded until each has the minimum size or holds every untagged profile. */
  method Assign(sqrt: real -> real, profiles: seq<ClusterProfile>, opts: Options)
    returns (out: seq<Cohort>, ghost tagged: seq<ClusterProfile>, ghost untagged: seq<ClusterProfile>,
             ghost groups: seq<int>, ghost autos: seq<Cohort>)
    ensures Held(out) == multiset(NamesOf(profiles))
    ensures multiset(profiles) == multiset(tagged) + multiset(untagged)
    ensures (forall p :: p in tagged ==> p.tag != "") && (forall p :: p in untagged ==> p.tag == "")
    ensures forall tag :: tag in TagsOf(tagged) ==> Named(out, tag)
    ensures var minClusters := if opts.minClusters == 0 then 6 else opts.minClusters;
            forall c :: c in out ==> Placed(tagged, untagged, groups, minClusters, c)
    ensures Numbered(autos) && HoldsAutos(out, autos)
    ensures var minClusters := if opts.minClusters == 0 then 6 else opts.minClusters;
            var maxCohorts := if opts.maxCohorts == 0 then 8 else opts.maxCohorts;
            var minSize := if opts.minCohortSize == 0 then 3 else opts.minCohortSize;
            |untagged| >= minClusters && |untagged| > 0 ==>
              Clustered(sqrt, untagged, maxCohorts, minSize, groups)
    ensures var minSize := if opts.minCohortSize == 0 then 3 else opts.minCohortSize;
            AllBelow(sqrt, untagged) && minSize > 1 ==>
              forall c :: c in out && c.source == Auto ==>
                |c.clusters| >= minSize || multiset(c.clusters) == multiset(NamesOf(untagged))
    ensures Ascending(CohortLess, out) && forall c :: c in out ==> InOrder(c)
  {
    hide InOrder, Ascending, Clustered, AllBelow, Listed, OneGroupsNames;
    var minClusters := OrDefault(opts.minClusters, DEFAULT_MIN_CLUSTERS);
    var minSize := OrDefault(opts.minCohortSize, DEFAULT_MIN_COHORT_SIZE);
    var maxCohorts := OrDefault(opts.maxCohorts, DEFAULT_MAX_COHORTS);
    var withTag, without, _, _ := SplitByTag(profiles);
    tagged, untagged := withTag, without;
    NamesPermuted(profiles, withTag + without);
    NamesConcat(withTag, without);
    var cohorts := TaggedCohorts(withTag);
    var others;
    others, groups := Untagged(sqrt, without, minClusters, minSize, maxCohorts);
    ListedConcat(ClustersIn, cohorts, others);
    AllPlaced(tagged, untagged, groups, minClusters, cohorts, others);
    out := Finalize(cohorts + others);
    PlacedUpToOrder(tagged, untagged, groups, minClusters, cohorts + others, out);
    NamedUpToOrder(cohorts + others, out);
    autos := AutosKept(cohorts, others, out);
    AutoSizes(sqrt, tagged, untagged, groups, minClusters, maxCohorts, minSize, out);
    forall tag | tag in TagsOf(tagged)
      ensures Named(out, tag)
    {
      var d :| d in cohorts && d.name == tag;
      assert d in cohorts + others;
    }
  }
}
