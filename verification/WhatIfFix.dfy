/** The consensus fix of internal/report/whatif.go: a patched copy of the scan results in which one cluster has the
    members it lacked, and what the set detector then says. */
module WhatIfFix {
  import opened Populations
  import opened SetFacts
  import opened SetNorms
  import opened Sorting
  import opened Wrappers

  // ----- Scan results, shared by reference

  /** One scanner's payload on one cluster. */
  class Payload {
    const fields: map<string, Value>

    constructor (data: map<string, Value>)
      ensures fields == data
    {
      fields := data;
    }
  }

  class ScannerResults {
    var byScanner: map<string, Payload>

    constructor ()
      ensures byScanner == map[]
    {
      byScanner := map[];
    }
  }

  class FleetResults {
    var byCluster: map<string, ScannerResults>

    constructor ()
      ensures byCluster == map[]
    {
      byCluster := map[];
    }
  }

  /** The results as values: cluster, scanner, field. */
  type Snapshot = map<string, map<string, map<string, Value>>>

  ghost predicate Shows(results: FleetResults, snap: Snapshot)
    reads *
  {
    results.byCluster.Keys == snap.Keys && forall c :: c in snap ==> ShowsCluster(results.byCluster[c], snap[c])
  }

  ghost predicate ShowsCluster(results: ScannerResults, snap: map<string, map<string, Value>>)
    reads results
  {
    results.byScanner.Keys == snap.Keys && forall s :: s in snap ==> results.byScanner[s].fields == snap[s]
  }

  // ----- Adding members to a payload

  function ValueAt(fields: map<string, Value>, field: string): Value {
    if field in fields then fields[field] else Null
  }

  /** The objects the members are built into. */
  function BuiltObjects(keys: seq<string>, members: seq<string>): (items: seq<Item>)
    requires |keys| >= 1
    ensures |items| == |members|
  {
    seq(|members|, i requires 0 <= i < |members| => Obj(MemberObject(keys, members[i]), ""))
  }

  /** The payload with the members added: as objects where the field is projected, refused where the projection
      cannot build them, else as strings. */
  function WithMembers(fields: map<string, Value>, scanner: string, field: string, missing: seq<string>)
    : Option<map<string, Value>>
  {
    var p := ProjectionOf(scanner);
    if p.None? || p.value.to != field then
      Some(fields[field := Array(ItemsOf(ValueAt(fields, field)) + Strings(missing))])
    else if !p.value.builds then None
    else Some(fields[p.value.from :=
                Array(ItemsOf(ValueAt(fields, p.value.from)) + BuiltObjects(p.value.keys, missing))])
  }

  method AppendStrings(items: seq<Item>, missing: seq<string>) returns (all: seq<Item>)
    ensures all == items + Strings(missing)
  {
    all := items;
    for i := 0 to |missing|
      invariant all == items + Strings(missing)[..i]
    {
      all := all + [Str(missing[i])];
    }
    assert Strings(missing)[..|missing|] == Strings(missing);
  }

  method AppendObjects(items: seq<Item>, keys: seq<string>, missing: seq<string>) returns (all: seq<Item>)
    requires |keys| >= 1
    ensures all == items + BuiltObjects(keys, missing)
  {
    hide MemberObject;
    all := items;
    for i := 0 to |missing|
      invariant all == items + BuiltObjects(keys, missing)[..i]
    {
      all := all + [Obj(MemberObject(keys, missing[i]), "")];
    }
    assert BuiltObjects(keys, missing)[..|missing|] == BuiltObjects(keys, missing);
  }

  method AddMembers(fields: map<string, Value>, scanner: string, field: string, missing: seq<string>)
    returns (added: Option<map<string, Value>>)
    ensures added == WithMembers(fields, scanner, field, missing)
  {
    hide ProjectionOf, BuiltObjects, Strings;
    var p := ProjectionOf(scanner);
    if p.None? || p.value.to != field {
      var items := AppendStrings(ItemsOf(ValueAt(fields, field)), missing);
      return Some(fields[field := Array(items)]);
    }
    if !p.value.builds {
      return None;
    }
    var items := AppendObjects(ItemsOf(ValueAt(fields, p.value.from)), p.value.keys, missing);
    return Some(fields[p.value.from := Array(items)]);
  }

  // ----- The patched copy

  datatype Fix = Fix(cluster: string, scanner: string, field: string)

  /** The results with one payload replaced. */
  ghost function Patched(snap: Snapshot, fix: Fix, fields: map<string, Value>): Snapshot
    requires fix.cluster in snap
  {
    snap[fix.cluster := snap[fix.cluster][fix.scanner := fields]]
  }

  /** A copy of the results with the missing members added to one payload; everything else is shared and the
      results given are left alone. */
  method ApplyFix(results: FleetResults, fix: Fix, missing: seq<string>, ghost snap: Snapshot)
    returns (patched: FleetResults?)
    requires Shows(results, snap)
    ensures Shows(results, snap)
    ensures patched == null <==>
            fix.cluster !in snap || fix.scanner !in snap[fix.cluster]
            || WithMembers(snap[fix.cluster][fix.scanner], fix.scanner, fix.field, missing).None?
    ensures patched != null ==> fresh(patched)
    ensures patched != null ==>
              var added := WithMembers(snap[fix.cluster][fix.scanner], fix.scanner, fix.field, missing);
              Shows(patched, Patched(snap, fix, added.value))
  {
    hide WithMembers;
    if fix.cluster !in results.byCluster || fix.scanner !in results.byCluster[fix.cluster].byScanner {
      return null;
    }
    var data := results.byCluster[fix.cluster].byScanner[fix.scanner].fields;
    var added := AddMembers(data, fix.scanner, fix.field, missing);
    if added.None? {
      return null;
    }
    patched := CopyWith(results, fix, added.value, snap);
  }

  /** A copy of the results that shares all of them but one payload. */
  method CopyWith(results: FleetResults, fix: Fix, fields: map<string, Value>, ghost snap: Snapshot)
    returns (patched: FleetResults)
    requires Shows(results, snap) && fix.cluster in snap
    ensures fresh(patched) && Shows(results, snap) && Shows(patched, Patched(snap, fix, fields))
  {
    hide ShowsCluster;
    var byScanner := CopyCluster(results.byCluster[fix.cluster], fix.scanner, fields, snap[fix.cluster]);
    patched := new FleetResults();
    patched.byCluster := results.byCluster[fix.cluster := byScanner];
  }

  /** A copy of one cluster's results that shares all of them but one payload. */
  method CopyCluster(results: ScannerResults, scanner: string, fields: map<string, Value>,
                     ghost snap: map<string, map<string, Value>>)
    returns (copy: ScannerResults)
    requires ShowsCluster(results, snap)
    ensures fresh(copy) && ShowsCluster(copy, snap[scanner := fields])
  {
    copy := new ScannerResults();
    var payload := new Payload(fields);
    copy.byScanner := results.byScanner[scanner := payload];
  }

  // ----- The lists the detector reads

  /** What every cluster reports of the field. */
  ghost function ListsOf(snap: Snapshot, scanner: string, field: string): map<string, seq<string>> {
    map c | c in snap && scanner in snap[c] && ListOf(scanner, field, snap[c][scanner]).Some?
      :: ListOf(scanner, field, snap[c][scanner]).value
  }

  /** A payload's list after the fix is its old list with the missing members. */
  ghost predicate FixTakes(scanner: string, field: string, fields: map<string, Value>, missing: seq<string>) {
    WithMembers(fields, scanner, field, missing).Some? && ListOf(scanner, field, fields).Some?
    && ListOf(scanner, field, WithMembers(fields, scanner, field, missing).value) ==
       Some(ListOf(scanner, field, fields).value + missing)
  }

  lemma TextsConcat(a: seq<Item>, b: seq<Item>)
    ensures Texts(a + b) == Texts(a) + Texts(b)
  {
  }

  /** A plain field takes any members. */
  lemma PlainFixTakes(scanner: string, field: string, fields: map<string, Value>, missing: seq<string>)
    requires ListOf(scanner, field, fields).Some?
    requires var p := ProjectionOf(scanner); p.None? || field != p.value.to
    ensures FixTakes(scanner, field, fields, missing)
  {
    TextsConcat(ItemsOf(ValueAt(fields, field)), Strings(missing));
  }

  /** The members that split into one non-empty part per key. */
  function Splitting(keys: seq<string>, members: seq<string>): (r: seq<string>)
    requires |keys| >= 1
    ensures |r| <= |members|
  {
    if members == [] then []
    else
      var k := |members| - 1;
      Splitting(keys, members[..k]) + if Splits(keys, members[k]) then [members[k]] else []
  }

  lemma {:induction false} SplittingAll(keys: seq<string>, members: seq<string>)
    requires |keys| >= 1
    ensures |Splitting(keys, members)| == |members| <==> forall m :: m in members ==> Splits(keys, m)
    ensures (forall m :: m in members ==> Splits(keys, m)) ==> Splitting(keys, members) == members
    ensures forall m :: m in Splitting(keys, members) ==> m in members
  {
    if members != [] {
      var k := |members| - 1;
      SplittingAll(keys, members[..k]);
      assert members == members[..k] + [members[k]];
    }
  }

  /** An object built from a new member adds it to the members named exactly when it splits. */
  lemma OneMoreBuilt(keys: seq<string>, items: seq<Item>, member: string)
    requires |keys| >= 1 && NoDuplicates(keys) && member != "" && member !in Named(keys, items)
    ensures Named(keys, items + [Obj(MemberObject(keys, member), "")]) ==
            Named(keys, items) + if Splits(keys, member) then [member] else []
  {
    hide Splits, MemberOf, MemberObject;
    var all := items + [Obj(MemberObject(keys, member), "")];
    assert all[..|all| - 1] == items;
    MemberRoundTrip(keys, member);
  }

  /** Objects built from new members project back to those that split. */
  lemma {:induction false} NamedAfterBuild(keys: seq<string>, items: seq<Item>, members: seq<string>)
    requires |keys| >= 1 && NoDuplicates(keys) && NoDuplicates(members)
    requires forall m :: m in members ==> m !in Named(keys, items) && m != ""
    ensures Named(keys, items + BuiltObjects(keys, members)) == Named(keys, items) + Splitting(keys, members)
  {
    hide Splits, MemberObject, Named, Splitting;
    if members == [] {
      assert items + BuiltObjects(keys, members) == items;
      SplittingAll(keys, members);
    } else {
      var k := |members| - 1;
      var front := items + BuiltObjects(keys, members[..k]);
      assert members == members[..k] + [members[k]];
      assert forall m :: m in members[..k] ==> m in members;
      NamedAfterBuild(keys, items, members[..k]);
      assert items + BuiltObjects(keys, members) == front + [Obj(MemberObject(keys, members[k]), "")];
      SplittingAll(keys, members[..k]);
      assert members[k] in members && members[k] !in members[..k];
      OneMoreBuilt(keys, front, members[k]);
      var tail := if Splits(keys, members[k]) then [members[k]] else [];
      SplittingMore(keys, members);
      Regroup(Named(keys, items), Splitting(keys, members[..k]), tail);
    }
  }

  lemma SplittingMore(keys: seq<string>, members: seq<string>)
    requires |keys| >= 1 && members != []
    ensures var k := |members| - 1;
            Splitting(keys, members) ==
            Splitting(keys, members[..k]) + if Splits(keys, members[k]) then [members[k]] else []
  {
  }

  lemma Regroup<T>(a: seq<T>, b: seq<T>, c: seq<T>)
    ensures a + b + c == a + (b + c)
  {
  }

  /** A projected field takes exactly the members that split; all of them when they all do. */
  lemma ProjectedFixTakes(scanner: string, fields: map<string, Value>, missing: seq<string>)
    requires var p := ProjectionOf(scanner);
             p.Some? && p.value.builds && p.value.from in fields && NoDuplicates(missing) && "" !in missing
             && forall m :: m in missing ==> m !in ListOf(scanner, p.value.to, fields).value
    ensures FixTakes(scanner, ProjectionOf(scanner).value.to, fields, missing) <==>
            forall m :: m in missing ==> Splits(ProjectionOf(scanner).value.keys, m)
  {
    var p := ProjectionOf(scanner).value;
    var items := ItemsOf(fields[p.from]);
    hide Named, Splits, ProjectionOf;
    NamedAfterBuild(p.keys, items, missing);
    SplittingAll(p.keys, missing);
    var after := WithMembers(fields, scanner, p.to, missing).value;
    assert ListOf(scanner, p.to, fields).value == Named(p.keys, items);
    assert ListOf(scanner, p.to, after).value == Named(p.keys, items) + Splitting(p.keys, missing);
  }

  // ----- What the detector says afterwards

  lemma {:induction false} CountAfterFix(order: seq<string>, lists: map<string, seq<string>>, x: string,
                                         missing: seq<string>, item: string)
    requires (forall c :: c in order ==> c in lists) && x in lists
    ensures CountItem(order, lists, item) <= CountItem(order, lists[x := lists[x] + missing], item)
    ensures item !in missing ==> CountItem(order, lists, item) == CountItem(order, lists[x := lists[x] + missing], item)
  {
    if order != [] {
      CountAfterFix(order[..|order| - 1], lists, x, missing, item);
      assert item !in missing ==> multiset(missing)[item] == 0;
    }
  }

  /** Giving a cluster the consensus members it lacks moves no item in or out of the consensus. */
  lemma ConsensusUnmoved(order: seq<string>, lists: map<string, seq<string>>, x: string, missing: seq<string>)
    requires (forall c :: c in order ==> c in lists) && x in lists
    requires forall m :: m in missing ==> InConsensus(order, lists, m)
    ensures forall item :: InConsensus(order, lists[x := lists[x] + missing], item) <==> InConsensus(order, lists, item)
  {
    forall item
      ensures InConsensus(order, lists[x := lists[x] + missing], item) <==> InConsensus(order, lists, item)
    {
      CountAfterFix(order, lists, x, missing, item);
    }
  }

  ghost predicate Flagged(d: Distribution, c: string) {
    exists i :: 0 <= i < |d.values| && d.values[i].cluster == c && d.values[i].outlier
  }

  lemma FlaggedIsMissing(d: Distribution, order: seq<string>, lists: map<string, seq<string>>, c: string)
    requires (forall c :: c in order ==> c in lists) && Describes(d, order, lists)
    ensures Flagged(d, c) <==> c in order && exists m :: m in d.consensus && m !in lists[c]
  {
    hide InConsensus, NoDuplicates, SetOf;
    if c in order {
      var i :| 0 <= i < |order| && order[i] == c;
      var missing := MissingFrom(d.consensus, lists[c]);
      assert d.values[i] == Judged(d.consensus, c, lists);
      if m :| m in d.consensus && m !in lists[c] {
        assert m in missing;
      }
      if missing != [] { assert missing[0] in missing; }
    }
  }

  /** The fix clears its own cluster's flag and no other's, and flags none. */
  lemma FixClearsOnlyIts(order: seq<string>, lists: map<string, seq<string>>, x: string, d: Distribution,
                         d': Distribution, c: string)
    requires (forall c :: c in order ==> c in lists) && x in order && Describes(d, order, lists)
    requires Describes(d', order, lists[x := lists[x] + MissingFrom(d.consensus, lists[x])])
    ensures d'.consensus == d.consensus
    ensures Flagged(d', c) <==> Flagged(d, c) && c != x
  {
    hide InConsensus, NoDuplicates, SetOf;
    var missing := MissingFrom(d.consensus, lists[x]);
    var lists' := lists[x := lists[x] + missing];
    ConsensusUnmoved(order, lists, x, missing);
    SameListing(d.consensus, d'.consensus);
    FlaggedIsMissing(d, order, lists, c);
    FlaggedIsMissing(d', order, lists', c);
  }

  // ----- The whole what-if

  method CollectLists(results: FleetResults, scanner: string, field: string, ghost snap: Snapshot)
    returns (lists: map<string, seq<string>>)
    requires Shows(results, snap)
    ensures lists == ListsOf(snap, scanner, field)
  {
    lists := map[];
    var todo := results.byCluster.Keys;
    while todo != {}
      invariant todo <= snap.Keys
      invariant forall c :: c in lists <==> c in ListsOf(snap, scanner, field) && c !in todo
      invariant forall c :: c in lists ==> lists[c] == ListsOf(snap, scanner, field)[c]
    {
      ghost var some := Member(todo);
      var c :| c in todo;
      todo := todo - {c};
      if scanner !in results.byCluster[c].byScanner {
        continue;
      }
      var flat := PrepareFlat(scanner, results.byCluster[c].byScanner[scanner].fields);
      if field in flat {
        lists := lists[c := Texts(ItemsOf(flat[field]))];
      }
    }
  }

  /** Clusters flagged in one distribution and not in the other, sorted. */
  method FlaggedOnlyIn(d: Distribution, other: Option<Distribution>) returns (names: seq<string>)
    ensures forall c :: c in names <==> Flagged(d, c) && (other.None? || !Flagged(other.value, c))
    ensures Ascending(StringLess, names)
    ensures (forall i, j :: 0 <= i < j < |d.values| ==> d.values[i].cluster != d.values[j].cluster) ==>
              NoDuplicates(names)
  {
    ghost var once := forall i, j :: 0 <= i < j < |d.values| ==> d.values[i].cluster != d.values[j].cluster;
    var flagged: set<string> := {};
    if other.Some? {
      flagged := FlaggedSet(other.value);
    }
    var found := [];
    for i := 0 to |d.values|
      invariant forall c :: c in found <==>
                  c !in flagged && exists k :: 0 <= k < i && d.values[k].cluster == c && d.values[k].outlier
      invariant once ==> NoDuplicates(found)
    {
      if d.values[i].outlier && d.values[i].cluster !in flagged {
        found := found + [d.values[i].cluster];
      }
    }
    names := Sorted(StringLess, found);
    StringsTotal();
    SortedAscending(StringLess, found);
    if NoDuplicates(found) { Reordered(found, names); }
    forall c ensures c in names <==> c in found {
      assert c in multiset(names) <==> c in multiset(found);
    }
  }

  method FlaggedSet(d: Distribution) returns (flagged: set<string>)
    ensures forall c :: c in flagged <==> Flagged(d, c)
  {
    flagged := {};
    for i := 0 to |d.values|
      invariant forall c :: c in flagged <==> exists k :: 0 <= k < i && d.values[k].cluster == c && d.values[k].outlier
    {
      if d.values[i].outlier {
        flagged := flagged + {d.values[i].cluster};
      }
    }
  }

  /** What the fix is made toward: the cluster's missing members when it is in the population. */
  method MissingOf(d: Distribution, cluster: string) returns (missing: Option<seq<string>>)
    ensures missing.None? <==> forall i :: 0 <= i < |d.values| ==> d.values[i].cluster != cluster
    ensures missing.Some? ==> exists i :: 0 <= i < |d.values| && d.values[i].cluster == cluster
                                          && d.values[i].missing == missing.value
  {
    for i := 0 to |d.values|
      invariant forall k :: 0 <= k < i ==> d.values[k].cluster != cluster
    {
      if d.values[i].cluster == cluster {
        return Some(d.values[i].missing);
      }
    }
    missing := None;
  }

  /** The fix is possible, and its payload takes it whole. */
  ghost predicate Fixable(clusters: seq<string>, snap: Snapshot, fix: Fix, d: Distribution) {
    var lists := ListsOf(snap, fix.scanner, fix.field);
    fix.cluster in Population(clusters, lists)
    && FixTakes(fix.scanner, fix.field, snap[fix.cluster][fix.scanner], MissingFrom(d.consensus, lists[fix.cluster]))
  }

  // ----- Which fixes take

  /** Every cluster of the population reports the raw array behind a projected field. */
  ghost predicate RawReported(clusters: seq<string>, snap: Snapshot, fix: Fix) {
    var p := ProjectionOf(fix.scanner);
    p.Some? && p.value.to == fix.field ==>
      forall c :: c in Population(clusters, ListsOf(snap, fix.scanner, fix.field)) ==>
        p.value.from in snap[c][fix.scanner]
  }

  lemma {:induction false} NamedByObject(keys: seq<string>, items: seq<Item>, m: string)
    requires m in Named(keys, items)
    ensures exists i :: 0 <= i < |items| && items[i].Obj? && MemberOf(keys, items[i].fields) == m != ""
  {
    hide MemberOf;
    if items != [] {
      var k := |items| - 1;
      if m in Named(keys, items[..k]) {
        NamedByObject(keys, items[..k], m);
        var i :| 0 <= i < k && items[..k][i].Obj? && MemberOf(keys, items[..k][i].fields) == m;
        assert items[i] == items[..k][i];
      }
    }
  }

  lemma SplitsInTwo(ns: string, name: string)
    requires ns != "" && name != ""
    ensures var s := ns + "/" + name;
            |SplitN(s, 2)| == 2 && SplitN(s, 2)[1] != "" && (SplitN(s, 2)[0] != "" <==> s[0] != '/')
  {
    var s := ns + "/" + name;
    var i := FirstSlash(s);
    assert s[|ns|] == '/';
    assert forall k :: 0 <= k < i ==> s[k] in s[..i];
    assert SplitN(s[i + 1..], 1) == [s[i + 1..]];
    assert SplitN(s, 2) == [s[..i], s[i + 1..]];
  }

  /** A service named by its namespace and name splits back into them unless its first character is the
      separator. */
  lemma ServiceSplits(fields: map<string, string>)
    requires MemberOf(["namespace", "name"], fields) != ""
    ensures Splits(["namespace", "name"], MemberOf(["namespace", "name"], fields)) <==>
            MemberOf(["namespace", "name"], fields)[0] != '/'
  {
    var keys := ["namespace", "name"];
    assert keys[1..] == ["name"] && ["name"][1..] == [];
    assert |Parts([], fields)| == 0 && |Parts(["name"], fields)| <= 1;
    var parts := Parts(keys, fields);
    assert parts == [fields["namespace"]] + [fields["name"]];
    assert Join(parts) == parts[0] + "/" + Join(parts[1..]) && parts[1..] == [parts[1]];
    SplitsInTwo(parts[0], parts[1]);
  }

  lemma NameSplits(member: string)
    requires member != ""
    ensures Splits(["name"], member)
  {
  }

  /** A consensus member stands in the list of some cluster. */
  lemma {:induction false} CountedIsListed(order: seq<string>, lists: map<string, seq<string>>, item: string)
    requires (forall c :: c in order ==> c in lists) && CountItem(order, lists, item) > 0
    ensures exists c :: c in order && item in lists[c]
  {
    var k := |order| - 1;
    if multiset(lists[order[k]])[item] > 0 {
      assert order[k] in order && item in lists[order[k]];
    } else {
      assert forall c :: c in order[..k] ==> c in order;
      CountedIsListed(order[..k], lists, item);
    }
  }

  /** A reported name of a projected set is one an object gave, and what it splits into. */
  lemma ReportedName(scanner: string, fields: map<string, Value>, m: string)
    requires ProjectionOf(scanner).Some? && ProjectionOf(scanner).value.from in fields
    requires ListOf(scanner, ProjectionOf(scanner).value.to, fields).Some?
    requires m in ListOf(scanner, ProjectionOf(scanner).value.to, fields).value
    requires ProjectionOf(scanner).value.builds
    ensures m != "" && (Splits(ProjectionOf(scanner).value.keys, m) <==> scanner == "services" ==> m[0] != '/')
  {
    hide MemberOf, Splits, Named;
    var p := ProjectionOf(scanner).value;
    var items := ItemsOf(fields[p.from]);
    assert ListOf(scanner, p.to, fields).value == Named(p.keys, items);
    NamedByObject(p.keys, items, m);
    if scanner == "services" {
      var i :| 0 <= i < |items| && items[i].Obj? && MemberOf(p.keys, items[i].fields) == m;
      ServiceSplits(items[i].fields);
    } else {
      NameSplits(m);
    }
  }

  /** No member the cluster lacks starts with the separator. */
  ghost predicate NoLeadingSlash(missing: seq<string>) {
    forall m :: m in missing ==> m != "" && m[0] != '/'
  }

  /** A fix toward what the clusters report takes on a plain field and on the crd names always, on the service names
      exactly when no missing name starts with a slash, which no namespace does, and on the ingress classes never. */
  lemma WhenFixTakes(clusters: seq<string>, snap: Snapshot, fix: Fix, d: Distribution)
    requires var lists := ListsOf(snap, fix.scanner, fix.field);
             Describes(d, Population(clusters, lists), lists) && fix.cluster in Population(clusters, lists)
    requires RawReported(clusters, snap, fix)
    ensures Fixable(clusters, snap, fix, d) <==>
              if fix.scanner == "ingresses" && fix.field == "ingress_classes" then false
              else if fix.scanner == "services" && fix.field == "service_names" then
                NoLeadingSlash(MissingFrom(d.consensus, ListsOf(snap, fix.scanner, fix.field)[fix.cluster]))
              else true
  {
    hide ListOf, WithMembers, Describes, Population, NoLeadingSlash, Splits, MissingFrom;
    var lists := ListsOf(snap, fix.scanner, fix.field);
    var p := ProjectionOf(fix.scanner);
    var fields := snap[fix.cluster][fix.scanner];
    var missing := MissingFrom(d.consensus, lists[fix.cluster]);
    if p.None? || p.value.to != fix.field {
      PlainFixTakes(fix.scanner, fix.field, fields, missing);
    } else if p.value.builds {
      MissingReported(clusters, snap, fix, d);
      ProjectedFixTakes(fix.scanner, fields, missing);
      NoLeadingIs(fix.scanner, missing);
    } else {
      NothingBuilt(fix.scanner, fields, missing);
    }
  }

  lemma NoLeadingIs(scanner: string, missing: seq<string>)
    requires ProjectionOf(scanner).Some?
    requires forall m :: m in missing ==>
      m != "" && (Splits(ProjectionOf(scanner).value.keys, m) <==> scanner == "services" ==> m[0] != '/')
    ensures (forall m :: m in missing ==> Splits(ProjectionOf(scanner).value.keys, m)) <==>
            (scanner == "services" ==> NoLeadingSlash(missing))
  {
    hide Splits, ProjectionOf;
  }

  lemma NothingBuilt(scanner: string, fields: map<string, Value>, missing: seq<string>)
    requires ProjectionOf(scanner).Some? && !ProjectionOf(scanner).value.builds
    ensures !FixTakes(scanner, ProjectionOf(scanner).value.to, fields, missing)
  {
  }

  /** What a cluster lacks of a projected set was reported by another, and is listed once. */
  lemma MissingReported(clusters: seq<string>, snap: Snapshot, fix: Fix, d: Distribution)
    requires var lists := ListsOf(snap, fix.scanner, fix.field);
             Describes(d, Population(clusters, lists), lists) && fix.cluster in Population(clusters, lists)
    requires RawReported(clusters, snap, fix) && ProjectionOf(fix.scanner).Some?
    requires ProjectionOf(fix.scanner).value.to == fix.field && ProjectionOf(fix.scanner).value.builds
    ensures var p := ProjectionOf(fix.scanner).value;
            var lists := ListsOf(snap, fix.scanner, fix.field);
            var missing := MissingFrom(d.consensus, lists[fix.cluster]);
            && p.from in snap[fix.cluster][fix.scanner] && NoDuplicates(missing)
            && forall m :: m in missing ==>
                 && m !in lists[fix.cluster] && m != ""
                 && (Splits(p.keys, m) <==> fix.scanner == "services" ==> m[0] != '/')
  {
    var lists := ListsOf(snap, fix.scanner, fix.field);
    var order := Population(clusters, lists);
    var missing := MissingFrom(d.consensus, lists[fix.cluster]);
    assert ProjectionOf(fix.scanner).value.from in snap[fix.cluster][fix.scanner];
    hide ListOf, Population, Splits, CountItem, ProjectionOf;
    MissingOnce(d.consensus, lists[fix.cluster]);
    forall m | m in missing
      ensures m != ""
      ensures Splits(ProjectionOf(fix.scanner).value.keys, m) <==> fix.scanner == "services" ==> m[0] != '/'
    {
      assert InConsensus(order, lists, m);
      PopulationCounts(order, fix.cluster);
      CountedIsListed(order, lists, m);
      var c :| c in order && m in lists[c];
      ReportedName(fix.scanner, snap[c][fix.scanner], m);
    }
  }

  lemma PopulationCounts(order: seq<string>, c: string)
    requires c in order
    ensures Threshold(|SetOf(order)|) > 0
  {
    assert c in SetOf(order);
    ThresholdPositive(|SetOf(order)|);
  }

  lemma {:induction false} MissingOnce(consensus: seq<string>, list: seq<string>)
    requires NoDuplicates(consensus)
    ensures NoDuplicates(MissingFrom(consensus, list))
  {
    if consensus != [] {
      var k := |consensus| - 1;
      MissingOnce(consensus[..k], list);
      assert consensus[k] !in consensus[..k];
    }
  }

  lemma ListsAfterFix(snap: Snapshot, fix: Fix, missing: seq<string>)
    requires fix.cluster in snap && fix.scanner in snap[fix.cluster]
    requires FixTakes(fix.scanner, fix.field, snap[fix.cluster][fix.scanner], missing)
    ensures var added := WithMembers(snap[fix.cluster][fix.scanner], fix.scanner, fix.field, missing).value;
            var lists := ListsOf(snap, fix.scanner, fix.field);
            fix.cluster in lists
            && ListsOf(Patched(snap, fix, added), fix.scanner, fix.field) ==
               lists[fix.cluster := lists[fix.cluster] + missing]
  {
    hide ListOf, WithMembers;
  }

  lemma {:induction false} SamePopulation(clusters: seq<string>, a: map<string, seq<string>>,
                                          b: map<string, seq<string>>)
    requires a.Keys == b.Keys
    ensures Population(clusters, a) == Population(clusters, b)
  {
    if clusters != [] { SamePopulation(clusters[..|clusters| - 1], a, b); }
  }

  /** What the detector says of one field of the results. */
  ghost predicate Detected(clusters: seq<string>, snap: Snapshot, fix: Fix, d: Option<Distribution>) {
    var lists := ListsOf(snap, fix.scanner, fix.field);
    && (d.None? <==> Population(clusters, lists) == [])
    && (d.Some? ==> Describes(d.value, Population(clusters, lists), lists))
  }

  /** The payload the fix leaves, None when the fix is refused: by a cluster outside the population, or by a
      projection that cannot rebuild its objects. */
  ghost function Fixed(clusters: seq<string>, snap: Snapshot, fix: Fix, d: Distribution): Option<map<string, Value>> {
    var lists := ListsOf(snap, fix.scanner, fix.field);
    if fix.cluster in Population(clusters, lists) then
      WithMembers(snap[fix.cluster][fix.scanner], fix.scanner, fix.field, MissingFrom(d.consensus, lists[fix.cluster]))
    else None
  }

  /** The clusters flagged in one distribution and not in the other. */
  ghost predicate FlaggedOnly(names: seq<string>, d: Option<Distribution>, other: Option<Distribution>) {
    && Ascending(StringLess, names)
    && forall c :: c in names <==>
         d.Some? && Flagged(d.value, c) && (other.None? || !Flagged(other.value, c))
  }

  /** Applies the consensus fix to a copy of the results and compares who is flagged before and after. The results
      given are not modified; a fix that takes clears its own cluster's flag, no other's, and flags no one. */
  method WhatIf(clusters: seq<string>, results: FleetResults, fix: Fix, ghost snap: Snapshot)
    returns (applied: bool, cleared: seq<string>, flaggedNow: seq<string>,
             ghost before: Option<Distribution>, ghost after: Option<Distribution>)
    requires Shows(results, snap)
    ensures Shows(results, snap)
    ensures Detected(clusters, snap, fix, before)
    ensures applied <==> before.Some? && Fixed(clusters, snap, fix, before.value).Some?
    ensures applied ==> fix.cluster in snap
                        && var fixed := Fixed(clusters, snap, fix, before.value).value;
                        && Detected(clusters, Patched(snap, fix, fixed), fix, after)
                        && FlaggedOnly(cleared, before, after) && FlaggedOnly(flaggedNow, after, before)
    ensures NoDuplicates(clusters) ==> NoDuplicates(cleared) && NoDuplicates(flaggedNow)
    ensures !applied ==> cleared == [] && flaggedNow == []
    ensures before.Some? && Fixable(clusters, snap, fix, before.value) ==>
              && applied
              && (forall c :: c in cleared <==> c == fix.cluster && Flagged(before.value, c))
              && flaggedNow == []
  {
    hide ListOf, WithMembers, Describes, Population, Flagged, ListsOf, MissingFrom, Patched;
    applied, cleared, flaggedNow, before, after := false, [], [], None, None;
    var lists := CollectLists(results, fix.scanner, fix.field, snap);
    var d := DetectSetOutliers(clusters, lists);
    before := d;
    if d.None? {
      EmptyPopulation(clusters, lists);
      return;
    }
    var missing := MissingOf(d.value, fix.cluster);
    MissingIs(d.value, Population(clusters, lists), lists, fix.cluster, missing);
    if missing.None? {
      return;
    }
    InSnapshot(snap, fix);
    var patched := ApplyFix(results, fix, missing.value, snap);
    if patched == null {
      return;
    }
    applied := true;
    ghost var added := WithMembers(snap[fix.cluster][fix.scanner], fix.scanner, fix.field, missing.value).value;
    var lists' := CollectLists(patched, fix.scanner, fix.field, Patched(snap, fix, added));
    var d' := DetectSetOutliers(clusters, lists');
    after := d';
    if NoDuplicates(clusters) {
      ValuesOnce(clusters, lists, d);
      ValuesOnce(clusters, lists', d');
    }
    cleared := FlaggedOnlyIn(d.value, d');
    if d'.Some? {
      flaggedNow := FlaggedOnlyIn(d'.value, d);
    }
    if Fixable(clusters, snap, fix, d.value) {
      FlagsAfterFix(clusters, snap, fix, d.value, d');
      HasFirst(flaggedNow);
    }
  }

  /** Clusters given once have one value each. */
  lemma ValuesOnce(clusters: seq<string>, lists: map<string, seq<string>>, d: Option<Distribution>)
    requires NoDuplicates(clusters) && (d.Some? ==> Describes(d.value, Population(clusters, lists), lists))
    ensures d.Some? ==>
              forall i, j :: 0 <= i < j < |d.value.values| ==> d.value.values[i].cluster != d.value.values[j].cluster
  {
    PopulationOnce(clusters, lists);
  }

  lemma HasFirst<T>(s: seq<T>)
    ensures s != [] ==> exists x :: x in s
  {
    if s != [] {
      assert s[0] in s;
    }
  }

  lemma FlagsAfterFix(clusters: seq<string>, snap: Snapshot, fix: Fix, d: Distribution, after: Option<Distribution>)
    requires var lists := ListsOf(snap, fix.scanner, fix.field); Describes(d, Population(clusters, lists), lists)
    requires Fixable(clusters, snap, fix, d)
    requires var lists := ListsOf(snap, fix.scanner, fix.field);
             var missing := MissingFrom(d.consensus, lists[fix.cluster]);
             var added := WithMembers(snap[fix.cluster][fix.scanner], fix.scanner, fix.field, missing).value;
             var lists' := ListsOf(Patched(snap, fix, added), fix.scanner, fix.field);
             && (after.None? <==> Population(clusters, lists') == [])
             && (after.Some? ==> Describes(after.value, Population(clusters, lists'), lists'))
    ensures after.Some? && after.value.consensus == d.consensus
    ensures after.Some? ==> forall c :: Flagged(after.value, c) <==> Flagged(d, c) && c != fix.cluster
  {
    hide ListOf, WithMembers, Describes, Population, Flagged, ListsOf;
    var lists := ListsOf(snap, fix.scanner, fix.field);
    var missing := MissingFrom(d.consensus, lists[fix.cluster]);
    InSnapshot(snap, fix);
    ListsAfterFix(snap, fix, missing);
    SamePopulation(clusters, lists, lists[fix.cluster := lists[fix.cluster] + missing]);
    FixClearsOnlyIts(Population(clusters, lists), lists, fix.cluster, d, after.value, fix.cluster);
    forall c ensures Flagged(after.value, c) <==> Flagged(d, c) && c != fix.cluster {
      FixClearsOnlyIts(Population(clusters, lists), lists, fix.cluster, d, after.value, c);
    }
  }

  lemma InSnapshot(snap: Snapshot, fix: Fix)
    ensures fix.cluster in ListsOf(snap, fix.scanner, fix.field) ==>
              fix.cluster in snap && fix.scanner in snap[fix.cluster]
  {
    hide ListOf;
  }

  lemma EmptyPopulation(clusters: seq<string>, lists: map<string, seq<string>>)
    requires Population(clusters, lists) == []
    ensures forall c :: c !in Population(clusters, lists)
  {
  }

  lemma MissingIs(d: Distribution, order: seq<string>, lists: map<string, seq<string>>, c: string,
                  missing: Option<seq<string>>)
    requires (forall c :: c in order ==> c in lists) && Describes(d, order, lists)
    requires missing.None? <==> forall i :: 0 <= i < |d.values| ==> d.values[i].cluster != c
    requires missing.Some? ==> exists i :: 0 <= i < |d.values| && d.values[i].cluster == c
                                           && d.values[i].missing == missing.value
    ensures missing.None? <==> c !in order
    ensures missing.Some? ==> missing.value == MissingFrom(d.consensus, lists[c])
  {
    hide InConsensus, NoDuplicates, SetOf;
    forall i | 0 <= i < |order| ensures d.values[i] == Judged(d.consensus, order[i], lists) {
    }
  }
}
