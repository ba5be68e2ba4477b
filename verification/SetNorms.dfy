/** The set detector of internal/report/outlier.go: the consensus of the lists clusters report, the members each
    lacks, and the projection of object arrays into member names. */
module SetNorms {
  import opened Populations
  import opened SetFacts
  import opened Sorting
  import opened Wrappers

  // ----- Members and objects

  /** An array entry: a string, an object with its string-valued keys, or anything else as printed. */
  datatype Item = Str(text: string) | Obj(fields: map<string, string>, text: string) | Printed(text: string)

  /** strings.Join with "/". */
  function Join(parts: seq<string>): string {
    if parts == [] then ""
    else if |parts| == 1 then parts[0]
    else parts[0] + "/" + Join(parts[1..])
  }

  /** Where the first "/" stands, or the length when there is none. */
  function FirstSlash(s: string): (i: nat)
    ensures i <= |s| && '/' !in s[..i] && (i < |s| ==> s[i] == '/')
  {
    if s == "" || s[0] == '/' then 0
    else
      var rest := FirstSlash(s[1..]);
      assert s[..rest + 1] == [s[0]] + s[1..][..rest];
      rest + 1
  }

  /** strings.SplitN on "/" into at most n parts, n at least one. */
  function SplitN(s: string, n: nat): (parts: seq<string>)
    requires n >= 1
    ensures 1 <= |parts| <= n
  {
    var i := FirstSlash(s);
    if n == 1 || i == |s| then [s] else [s[..i]] + SplitN(s[i + 1..], n - 1)
  }

  /** The string values of the keys, up to the first missing or empty one. */
  function Parts(keys: seq<string>, fields: map<string, string>): seq<string> {
    if keys == [] || keys[0] !in fields || fields[keys[0]] == "" then []
    else [fields[keys[0]]] + Parts(keys[1..], fields)
  }

  /** memberOf: the values of the keys joined, or "" when any is missing or empty. */
  function MemberOf(keys: seq<string>, fields: map<string, string>): string {
    if |Parts(keys, fields)| < |keys| then "" else Join(Parts(keys, fields))
  }

  /** memberObject: the member split over the keys. */
  function MemberObject(keys: seq<string>, member: string): map<string, string>
    requires |keys| >= 1
  {
    var parts := SplitN(member, |keys|);
    Assign(keys, parts)
  }

  /** Each key that has a part, with its part; a later key wins. */
  function Assign(keys: seq<string>, parts: seq<string>): (m: map<string, string>)
    ensures forall k :: k in m ==> k in keys
  {
    if keys == [] || parts == [] then map[]
    else
      var k := |keys| - 1;
      Assign(keys[..k], parts) + if k < |parts| then map[keys[k] := parts[k]] else map[]
  }

  lemma {:induction false} AssignAt(keys: seq<string>, parts: seq<string>, i: nat)
    requires NoDuplicates(keys) && i < |keys|
    ensures keys[i] in Assign(keys, parts) <==> i < |parts|
    ensures i < |parts| ==> Assign(keys, parts)[keys[i]] == parts[i]
  {
    if parts != [] {
      var k := |keys| - 1;
      if i < k {
        AssignAt(keys[..k], parts, i);
      } else {
        NotAssigned(keys[..k], parts, keys[k]);
      }
    }
  }

  lemma {:induction false} NotAssigned(keys: seq<string>, parts: seq<string>, k: string)
    requires k !in keys
    ensures k !in Assign(keys, parts)
  {
  }

  /** The split pieces give the member back. */
  lemma {:induction false} SplitJoins(s: string, n: nat)
    requires n >= 1
    ensures Join(SplitN(s, n)) == s
  {
    var i := FirstSlash(s);
    if n > 1 && i < |s| {
      SplitJoins(s[i + 1..], n - 1);
      assert s == s[..i] + "/" + s[i + 1..];
    }
  }

  lemma SplitEmpty(n: nat)
    requires n >= 1
    ensures SplitN("", n) == [""]
  {
  }

  /** The member splits into one non-empty part per key. */
  predicate Splits(keys: seq<string>, member: string)
    requires |keys| >= 1
  {
    |SplitN(member, |keys|)| == |keys| && forall i :: 0 <= i < |keys| ==> SplitN(member, |keys|)[i] != ""
  }

  lemma {:induction false} PartsFrom(keys: seq<string>, parts: seq<string>, from: nat, fields: map<string, string>)
    requires NoDuplicates(keys) && from <= |keys| && |parts| <= |keys|
    requires forall i :: 0 <= i < |keys| ==> (keys[i] in fields <==> i < |parts|)
    requires forall i :: 0 <= i < |parts| ==> fields[keys[i]] == parts[i]
    ensures |Parts(keys[from..], fields)| == |keys| - from <==>
            from == |keys| || (|parts| == |keys| && forall i :: from <= i < |keys| ==> parts[i] != "")
    ensures |Parts(keys[from..], fields)| == |keys| - from && |parts| == |keys| ==>
              Parts(keys[from..], fields) == parts[from..]
    ensures |Parts(keys[from..], fields)| <= |keys| - from
    decreases |keys| - from
  {
    if from < |keys| {
      PartsFrom(keys, parts, from + 1, fields);
      assert keys[from..][1..] == keys[from + 1..];
      if |parts| == |keys| {
        assert parts[from..] == [parts[from]] + parts[from + 1..];
      }
    }
  }

  /** memberOf gives back the member memberObject was built from exactly when it splits into one non-empty part
      per key; otherwise it gives none. */
  lemma MemberRoundTrip(keys: seq<string>, member: string)
    requires |keys| >= 1 && NoDuplicates(keys)
    ensures MemberOf(keys, MemberObject(keys, member)) == if Splits(keys, member) then member else ""
    ensures MemberOf(keys, MemberObject(keys, member)) == member <==> Splits(keys, member) || member == ""
  {
    hide SplitN, Join, Parts, Assign;
    var parts := SplitN(member, |keys|);
    var fields := MemberObject(keys, member);
    forall i | 0 <= i < |keys|
      ensures keys[i] in fields <==> i < |parts|
      ensures i < |parts| ==> fields[keys[i]] == parts[i]
    {
      AssignAt(keys, parts, i);
    }
    PartsFrom(keys, parts, 0, fields);
    assert keys[0..] == keys && parts[0..] == parts;
    SplitJoins(member, |keys|);
    if member == "" { SplitEmpty(|keys|); }
  }

  // ----- What a cluster reports

  datatype Value = Array(items: seq<Item>) | Null | Scalar(text: string)

  /** A set field read off an object array: builds says whether a member says enough to build an object. */
  datatype Projection = Projection(from: string, to: string, keys: seq<string>, builds: bool, skipEmpty: bool)

  function ProjectionOf(scanner: string): (p: Option<Projection>)
    ensures p.Some? ==> NoDuplicates(p.value.keys) && |p.value.keys| >= 1 && p.value.from != p.value.to
    ensures p.Some? && p.value.builds ==> !p.value.skipEmpty
  {
    match scanner
    case "services" => Some(Projection("services", "service_names", ["namespace", "name"], true, false))
    case "ingresses" => Some(Projection("ingresses", "ingress_classes", ["ingress_class_name"], false, true))
    case "crds" => Some(Projection("crds", "crd_names", ["name"], true, false))
    case _ => None
  }

  function ItemsOf(v: Value): seq<Item> {
    if v.Array? then v.items else []
  }

  function Texts(items: seq<Item>): (ts: seq<string>)
    ensures |ts| == |items|
  {
    seq(|items|, i requires 0 <= i < |items| => items[i].text)
  }

  function NameOf(keys: seq<string>, item: Item): string {
    if item.Obj? then MemberOf(keys, item.fields) else ""
  }

  /** The members the objects name, each once, in order. */
  ghost function Named(keys: seq<string>, items: seq<Item>): seq<string> {
    if items == [] then []
    else
      var before := Named(keys, items[..|items| - 1]);
      var name := NameOf(keys, items[|items| - 1]);
      if name == "" || name in before then before else before + [name]
  }

  /** A member is named exactly when some object's values say it, and it is named once. */
  lemma {:induction false} NamedMeans(keys: seq<string>, items: seq<Item>, x: string)
    ensures x in Named(keys, items) <==>
              x != "" && exists i :: 0 <= i < |items| && items[i].Obj? && MemberOf(keys, items[i].fields) == x
    ensures NoDuplicates(Named(keys, items))
  {
    hide MemberOf;
    if items != [] {
      var k := |items| - 1;
      NamedMeans(keys, items[..k], x);
      assert forall i :: 0 <= i < k ==> items[..k][i] == items[i];
    }
  }

  function Strings(ts: seq<string>): (items: seq<Item>)
    ensures Texts(items) == ts
  {
    seq(|ts|, i requires 0 <= i < |ts| => Str(ts[i]))
  }

  /** The payload with its projected member set. */
  ghost function Prepared(scanner: string, fields: map<string, Value>): map<string, Value> {
    var p := ProjectionOf(scanner);
    if p.None? || p.value.from !in fields then fields
    else
      var members := Named(p.value.keys, ItemsOf(fields[p.value.from]));
      if members == [] && p.value.skipEmpty then fields else fields[p.value.to := Array(Strings(members))]
  }

  /** A field read off objects that name nothing is an empty list, but ingress classes are then not reported at all;
      a cluster that reports no objects keeps the field it sends. */
  lemma NothingNamed(fields: map<string, Value>)
    ensures "services" in fields && Named(["namespace", "name"], ItemsOf(fields["services"])) == [] ==>
              ListOf("services", "service_names", fields) == Some([])
    ensures "crds" in fields && Named(["name"], ItemsOf(fields["crds"])) == [] ==>
              ListOf("crds", "crd_names", fields) == Some([])
    ensures "ingresses" in fields && Named(["ingress_class_name"], ItemsOf(fields["ingresses"])) == []
            && "ingress_classes" !in fields ==>
              ListOf("ingresses", "ingress_classes", fields) == None
    ensures "services" !in fields && "service_names" !in fields ==> ListOf("services", "service_names", fields) == None
  {
    hide Named;
  }

  method Project(keys: seq<string>, items: seq<Item>) returns (members: seq<string>)
    ensures members == Named(keys, items)
  {
    var seen: set<string> := {};
    members := [];
    for i := 0 to |items|
      invariant members == Named(keys, items[..i]) && forall x :: x in seen <==> x in members
    {
      assert items[..i + 1][..i] == items[..i];
      if !items[i].Obj? {
        continue;
      }
      var name := MemberOf(keys, items[i].fields);
      if name == "" || name in seen {
        continue;
      }
      seen := seen + {name};
      members := members + [name];
    }
    assert items[..|items|] == items;
  }

  method PrepareFlat(scanner: string, fields: map<string, Value>) returns (flat: map<string, Value>)
    ensures flat == Prepared(scanner, fields)
  {
    flat := fields;
    var p := ProjectionOf(scanner);
    if p.Some? && p.value.from in fields {
      var members := Project(p.value.keys, ItemsOf(fields[p.value.from]));
      if |members| != 0 || !p.value.skipEmpty {
        flat := flat[p.value.to := Array(Strings(members))];
      }
    }
  }

  /** The list the detector reads: none when the field is absent, empty when it is null. */
  ghost function ListOf(scanner: string, field: string, fields: map<string, Value>): Option<seq<string>> {
    var flat := Prepared(scanner, fields);
    if field in flat then Some(Texts(ItemsOf(flat[field]))) else None
  }

  // ----- The detector

  datatype ClusterValue = ClusterValue(cluster: string, size: nat, missing: seq<string>, outlier: bool)

  datatype Distribution = Distribution(consensus: seq<string>, values: seq<ClusterValue>, sampleSize: nat)

  /** How often the item is listed in all. */
  ghost function CountItem(order: seq<string>, lists: map<string, seq<string>>, item: string): nat
    requires forall c :: c in order ==> c in lists
  {
    if order == [] then 0
    else CountItem(order[..|order| - 1], lists, item) + multiset(lists[order[|order| - 1]])[item]
  }

  /** The smallest count that is six in ten of n. */
  function Threshold(n: nat): nat {
    (6 * n + 9) / 10
  }

  /** A count reaches it exactly when it is six in ten. */
  lemma ThresholdIsShare(count: nat, n: nat)
    ensures count >= Threshold(n) <==> 10 * count >= 6 * n
  {
  }

  ghost predicate InConsensus(order: seq<string>, lists: map<string, seq<string>>, item: string)
    requires forall c :: c in order ==> c in lists
  {
    CountItem(order, lists, item) >= Threshold(|SetOf(order)|)
  }

  /** The consensus members a list lacks, in order. */
  function MissingFrom(consensus: seq<string>, list: seq<string>): (missing: seq<string>)
    ensures forall x :: x in missing <==> x in consensus && x !in list
  {
    if consensus == [] then []
    else
      var last := consensus[|consensus| - 1];
      assert consensus == consensus[..|consensus| - 1] + [last];
      MissingFrom(consensus[..|consensus| - 1], list) + if last in list then [] else [last]
  }

  /** What a list lacks of a sorted consensus is sorted and listed once. */
  lemma {:induction false} MissingSorted(consensus: seq<string>, list: seq<string>)
    requires NoDuplicates(consensus) && Ascending(StringLess, consensus)
    ensures NoDuplicates(MissingFrom(consensus, list)) && Ascending(StringLess, MissingFrom(consensus, list))
  {
    if consensus != [] {
      var k := |consensus| - 1;
      assert consensus == consensus[..k] + [consensus[k]] && consensus[k] !in consensus[..k];
      MissingSorted(consensus[..k], list);
      var before := MissingFrom(consensus[..k], list);
      forall i | 0 <= i < |before| ensures !StringLess(consensus[k], before[i]) {
        assert before[i] in consensus[..k];
      }
    }
  }

  /** A cluster with what it lacks; it is an outlier when it lacks anything. */
  ghost function Judged(consensus: seq<string>, c: string, lists: map<string, seq<string>>): ClusterValue
    requires c in lists
  {
    var missing := MissingFrom(consensus, lists[c]);
    ClusterValue(c, |SetOf(lists[c])|, missing, missing != [])
  }

  /** What the detector says of a population: its consensus, and of every cluster what it lacks of it. */
  ghost predicate Describes(d: Distribution, order: seq<string>, lists: map<string, seq<string>>)
    requires forall c :: c in order ==> c in lists
  {
    && (forall x :: x in d.consensus <==> InConsensus(order, lists, x))
    && NoDuplicates(d.consensus) && Ascending(StringLess, d.consensus)
    && |d.values| == |order| && d.sampleSize == |SetOf(order)|
    && forall i :: 0 <= i < |order| ==> d.values[i] == Judged(d.consensus, order[i], lists)
  }

  method CountList(counts: map<string, nat>, list: seq<string>) returns (counts': map<string, nat>)
    requires forall x :: x in counts ==> counts[x] > 0
    ensures forall x :: x in counts' ==> counts'[x] > 0
    ensures forall x ::
              (if x in counts' then counts'[x] else 0) == (if x in counts then counts[x] else 0) + multiset(list)[x]
  {
    counts' := counts;
    for i := 0 to |list|
      invariant forall x :: x in counts' ==> counts'[x] > 0
      invariant forall x :: (if x in counts' then counts'[x] else 0) ==
                            (if x in counts then counts[x] else 0) + multiset(list[..i])[x]
    {
      assert list[..i + 1] == list[..i] + [list[i]];
      counts' := counts'[list[i] := (if list[i] in counts' then counts'[list[i]] else 0) + 1];
    }
    assert list[..|list|] == list;
  }

  /** The clusters that report, and how often every item is listed. */
  method Tally(clusters: seq<string>, lists: map<string, seq<string>>)
    returns (order: seq<string>, reporting: set<string>, counts: map<string, nat>)
    ensures order == Population(clusters, lists) && reporting == SetOf(order)
    ensures forall x :: (if x in counts then counts[x] else 0) == CountItem(order, lists, x)
    ensures forall x :: x in counts ==> counts[x] > 0
  {
    hide CountItem;
    order, reporting, counts := [], {}, map[];
    NoneCounted(lists);
    for i := 0 to |clusters|
      invariant order == Population(clusters[..i], lists) && reporting == SetOf(order)
      invariant forall x :: (if x in counts then counts[x] else 0) == CountItem(order, lists, x)
      invariant forall x :: x in counts ==> counts[x] > 0
    {
      assert clusters[..i + 1][..i] == clusters[..i];
      if clusters[i] !in lists {
        continue;
      }
      OneMoreCounted(order, lists, clusters[i]);
      counts := CountList(counts, lists[clusters[i]]);
      order := order + [clusters[i]];
      reporting := reporting + {clusters[i]};
    }
    assert clusters[..|clusters|] == clusters;
  }

  lemma NoneCounted(lists: map<string, seq<string>>)
    ensures forall x :: CountItem([], lists, x) == 0
  {
  }

  lemma OneMoreCounted(order: seq<string>, lists: map<string, seq<string>>, c: string)
    requires (forall o :: o in order ==> o in lists) && c in lists
    ensures forall x :: CountItem(order + [c], lists, x) == CountItem(order, lists, x) + multiset(lists[c])[x]
  {
    assert (order + [c])[..|order|] == order;
  }

  /** The items counted at least threshold times, sorted. */
  method Frequent(counts: map<string, nat>, threshold: nat) returns (items: seq<string>)
    ensures forall x :: x in items <==> x in counts && counts[x] >= threshold
    ensures NoDuplicates(items) && Ascending(StringLess, items)
  {
    var found: seq<string> := [];
    var todo := counts.Keys;
    while todo != {}
      invariant todo <= counts.Keys
      invariant forall x :: x in found <==> x in counts && x !in todo && counts[x] >= threshold
      invariant NoDuplicates(found)
    {
      ghost var some := Member(todo);
      var x :| x in todo;
      if counts[x] >= threshold {
        found := found + [x];
      }
      todo := todo - {x};
    }
    items := Sorted(StringLess, found);
    Reordered(found, items);
    StringsTotal();
    SortedAscending(StringLess, found);
  }

  /** Two sorted listings of the same distinct items are equal. */
  lemma SameListing(a: seq<string>, b: seq<string>)
    requires NoDuplicates(a) && NoDuplicates(b) && Ascending(StringLess, a) && Ascending(StringLess, b)
    requires forall x :: x in a <==> x in b
    ensures a == b
  {
    SameValues(a, b);
    StringsTotal();
    OneAscending(StringLess, a, b);
  }

  method Judge(consensus: seq<string>, order: seq<string>, lists: map<string, seq<string>>)
    returns (values: seq<ClusterValue>)
    requires forall c :: c in order ==> c in lists
    ensures |values| == |order| && forall i :: 0 <= i < |order| ==> values[i] == Judged(consensus, order[i], lists)
  {
    values := [];
    for i := 0 to |order|
      invariant |values| == i && forall k :: 0 <= k < i ==> values[k] == Judged(consensus, order[k], lists)
    {
      var list := lists[order[i]];
      var missing := MissingFrom(consensus, list);
      values := values + [ClusterValue(order[i], |set x | x in list|, missing, |missing| > 0)];
    }
  }

  method DetectSetOutliers(clusters: seq<string>, lists: map<string, seq<string>>) returns (d: Option<Distribution>)
    ensures d.None? <==> Population(clusters, lists) == []
    ensures d.Some? ==> Describes(d.value, Population(clusters, lists), lists)
    ensures d.Some? ==>
              forall x :: x in d.value.consensus <==>
                10 * CountItem(Population(clusters, lists), lists, x) >= 6 * |SetOf(Population(clusters, lists))|
    ensures d.Some? ==>
              forall v :: v in d.value.values ==>
                && v.cluster in clusters && v.cluster in lists && v.size == |SetOf(lists[v.cluster])|
                && (v.outlier <==> exists x :: x in d.value.consensus && x !in lists[v.cluster])
  {
    hide CountItem, Population, Judged, NoDuplicates;
    var order, reporting, counts := Tally(clusters, lists);
    if |order| == 0 {
      return None;
    }
    assert order[0] in reporting;
    ThresholdPositive(|reporting|);
    var consensus := Frequent(counts, Threshold(|reporting|));
    forall x ensures x in consensus <==> 10 * CountItem(order, lists, x) >= 6 * |reporting| {
      ThresholdIsShare(CountItem(order, lists, x), |reporting|);
    }
    var values := Judge(consensus, order, lists);
    d := Some(Distribution(consensus, values, |reporting|));
    JudgedMeans(consensus, order, lists, values);
  }

  /** A cluster is judged by how many items it lists, each counted once, and flagged when it lacks a consensus item. */
  lemma JudgedMeans(consensus: seq<string>, order: seq<string>, lists: map<string, seq<string>>,
                    values: seq<ClusterValue>)
    requires (forall c :: c in order ==> c in lists) && |values| == |order|
    requires forall i :: 0 <= i < |order| ==> values[i] == Judged(consensus, order[i], lists)
    ensures forall v :: v in values ==>
              && v.cluster in order && v.size == |SetOf(lists[v.cluster])|
              && (v.outlier <==> exists x :: x in consensus && x !in lists[v.cluster])
  {
    forall v | v in values
      ensures v.cluster in order && v.size == |SetOf(lists[v.cluster])|
      ensures v.outlier <==> exists x :: x in consensus && x !in lists[v.cluster]
    {
      var i :| 0 <= i < |values| && values[i] == v;
      var missing := MissingFrom(consensus, lists[order[i]]);
      if missing != [] { assert missing[0] in missing; }
    }
  }

  lemma ThresholdPositive(n: nat)
    requires n > 0
    ensures Threshold(n) > 0
  {
  }

  // ----- Consensus as a share of clusters

  ghost function Holders(order: seq<string>, lists: map<string, seq<string>>, item: string): nat
    requires forall c :: c in order ==> c in lists
  {
    if order == [] then 0
    else Holders(order[..|order| - 1], lists, item) + if item in lists[order[|order| - 1]] then 1 else 0
  }

  /** The count is never below the number of clusters that hold the item, and is that number exactly when no cluster
      lists the item twice. */
  lemma {:induction false} CountsHolders(order: seq<string>, lists: map<string, seq<string>>, item: string)
    requires forall c :: c in order ==> c in lists
    ensures CountItem(order, lists, item) >= Holders(order, lists, item)
    ensures CountItem(order, lists, item) == Holders(order, lists, item) <==>
            forall c :: c in order ==> multiset(lists[c])[item] <= 1
  {
    if order != [] {
      var k := |order| - 1;
      var c := order[k];
      assert forall x :: x in order <==> x in order[..k] || x == c;
      CountsHolders(order[..k], lists, item);
      assert item in multiset(lists[c]) <==> item in lists[c];
    }
  }

  lemma {:induction false} CountAtLeast(order: seq<string>, lists: map<string, seq<string>>, i: nat, item: string)
    requires (forall c :: c in order ==> c in lists) && i < |order|
    ensures CountItem(order, lists, item) >= multiset(lists[order[i]])[item]
  {
    if i < |order| - 1 { CountAtLeast(order[..|order| - 1], lists, i, item); }
  }

  lemma {:induction false} HeldByFirst(order: seq<string>, lists: map<string, seq<string>>, item: string)
    requires (forall c :: c in order ==> c in lists) && order != [] && item in lists[order[0]]
    requires forall i :: 0 < i < |order| ==> item !in lists[order[i]]
    ensures Holders(order, lists, item) == 1
  {
    if |order| == 1 {
      assert order[..0] == [];
    } else {
      HeldByFirst(order[..|order| - 1], lists, item);
    }
  }

  lemma {:induction false} SetNoLarger<T>(s: seq<T>)
    ensures |SetOf(s)| <= |s|
  {
    if s != [] {
      var k := |s| - 1;
      SetNoLarger(s[..k]);
      assert SetOf(s) == SetOf(s[..k]) + {s[k]};
    }
  }

  /** The comment says an item must appear in six of ten clusters. A cluster that lists it often enough makes it
      the consensus alone, in a population of any size. */
  lemma OneClusterIsConsensus(order: seq<string>, lists: map<string, seq<string>>, item: string)
    requires (forall c :: c in order ==> c in lists) && |order| >= 2
    requires multiset(lists[order[0]])[item] >= Threshold(|order|)
    requires forall i :: 0 < i < |order| ==> item !in lists[order[i]]
    ensures InConsensus(order, lists, item)
    ensures Holders(order, lists, item) == 1 < Threshold(|order|)
  {
    hide CountItem, Holders;
    CountAtLeast(order, lists, 0, item);
    assert item in multiset(lists[order[0]]);
    HeldByFirst(order, lists, item);
    SetNoLarger(order);
  }
}
