/** Where the promises of dropRedundant's comment in internal/report/findings.go end: exactly when the norm an
    absolute finding adopts depends on the order of the findings, and lists of findings that show which hypotheses
    the other theorems cannot do without. */
module PruningLimits {
  import opened FieldTable
  import opened Findings
  import opened Pruning
  import opened PruningFacts
  import opened PruningOrder
  import opened Wrappers
  import opened SetFacts

  const FLEET: map<string, seq<string>> := map["fleet" := ["a", "b", "c", "d", "e", "f", "g", "h"]]

  // ----- Which norm an absolute finding adopts

  /** a counts f's own field, singles it out, and is no less severe. */
  ghost predicate StatesOwn(all: set<Finding>, members: map<string, seq<string>>, f: Finding, a: Finding) {
    && !Absolute(f) && CountsIn(all, members, f.cluster, f.norm.value.field, f.norm.value.scope, a)
    && Rank(a.severity) >= Rank(f.severity)
  }

  lemma StatedByIs(ix: Index, members: map<string, seq<string>>, fs: seq<Finding>, m: nat, i: nat)
    requires Indexes(ix, fs) && UniqueAbsolutes(fs) && m < |fs| && i < |fs| && Absolute(fs[i])
    ensures StatedBy(ix, members, fs, m) == Some(i) <==> StatesOwn(SetOf(fs), members, fs[m], fs[i])
  {
    hide CountedBy, Indexes, SinglesIn, Counting;
    if !Absolute(fs[m]) {
      CountingAgrees(ix, members, fs, fs[m].cluster, fs[m].norm.value.field, fs[m].norm.value.scope);
    }
  }

  /** Finding m is the first of the k findings that a states. */
  ghost predicate FirstStated(members: map<string, seq<string>>, fs: seq<Finding>, a: Finding, k: nat, m: nat)
    requires k <= |fs|
  {
    && m < k && StatesOwn(SetOf(fs), members, fs[m], a)
    && forall m' :: 0 <= m' < m ==> !StatesOwn(SetOf(fs), members, fs[m'], a)
  }

  /** An absolute finding adopts the norm of the first norm finding it states. */
  lemma {:induction false} AdoptsFirst(ix: Index, members: map<string, seq<string>>, fs: seq<Finding>, i: nat, k: nat)
    requires Indexes(ix, fs) && UniqueAbsolutes(fs) && i < |fs| && Absolute(fs[i]) && k <= |fs|
    ensures var adopted := NormAfter(ix, members, fs, i, k);
            if adopted.None? then forall m :: 0 <= m < k ==> !StatesOwn(SetOf(fs), members, fs[m], fs[i])
            else exists m: nat :: FirstStated(members, fs, fs[i], k, m) && fs[m].norm == adopted
  {
    hide StatesOwn, StatedBy, Indexes, UniqueAbsolutes;
    if k > 0 {
      AdoptsFirst(ix, members, fs, i, k - 1);
      StatedByIs(ix, members, fs, k - 1, i);
      var before := NormAfter(ix, members, fs, i, k - 1);
      if before.Some? {
        var m: nat :| FirstStated(members, fs, fs[i], k - 1, m) && fs[m].norm == before;
        assert FirstStated(members, fs, fs[i], k, m);
      } else if StatedBy(ix, members, fs, k - 1) == Some(i) {
        OwnIsNorm(SetOf(fs), members, fs[k - 1], fs[i]);
        assert FirstStated(members, fs, fs[i], k, k - 1);
      }
    }
  }

  lemma OwnIsNorm(all: set<Finding>, members: map<string, seq<string>>, f: Finding, a: Finding)
    requires StatesOwn(all, members, f, a)
    ensures !Absolute(f) && f.cluster == a.cluster && CountedBy(f.norm.value.field) == a.rule != ""
  {
    hide CountedBy;
  }

  /** a states two norm findings of its cluster, on the two fields of host namespaces. */
  ghost predicate Contested(all: set<Finding>, members: map<string, seq<string>>, a: Finding) {
    exists f, g ::
      && f in all && g in all && StatesOwn(all, members, f, a) && StatesOwn(all, members, g, a)
      && f.norm.value.field == HOST_NETWORK && g.norm.value.field == HOST_PID
  }

  /** Two different norm findings that a states make it contested. */
  lemma TwoStated(members: map<string, seq<string>>, fs: seq<Finding>, a: Finding, m: nat, n: nat)
    requires UniqueNorms(fs) && m < |fs| && n < |fs| && m != n
    requires StatesOwn(SetOf(fs), members, fs[m], a) && StatesOwn(SetOf(fs), members, fs[n], a)
    ensures Contested(SetOf(fs), members, a)
    ensures fs[m].norm != fs[n].norm && {fs[m].norm.value.field, fs[n].norm.value.field} == {HOST_NETWORK, HOST_PID}
  {
    hide StatesOwn, CountedBy;
    OwnIsNorm(SetOf(fs), members, fs[m], a);
    OwnIsNorm(SetOf(fs), members, fs[n], a);
    CountedOnce(fs[m].norm.value.field, fs[n].norm.value.field);
    var f, g := fs[m], fs[n];
    assert f in SetOf(fs) && g in SetOf(fs) && NormKey(f) != NormKey(g);
    assert f.norm.value.field != g.norm.value.field;
    HostPair(f.norm.value.field, g.norm.value.field);
  }

  lemma HostPair(f: FieldRef, g: FieldRef)
    requires f != g && {f, g} == {HOST_NETWORK, HOST_PID}
    ensures (f == HOST_NETWORK && g == HOST_PID) || (f == HOST_PID && g == HOST_NETWORK)
  {
    assert f in {HOST_NETWORK, HOST_PID} && g in {HOST_NETWORK, HOST_PID};
  }

  /** A finding that is not contested carries the same norm after either order. */
  lemma AdoptionOrderFree(ix: Index, ix': Index, members: map<string, seq<string>>, fs: seq<Finding>, gs: seq<Finding>,
                          i: nat, j: nat)
    requires Indexes(ix, fs) && Indexes(ix', gs) && Regular(fs) && Regular(gs)
    requires forall f :: f in fs <==> f in gs
    requires i < |fs| && j < |gs| && fs[i] == gs[j] && !Contested(SetOf(fs), members, fs[i])
    ensures Adopted(ix, members, fs, |fs|)[i] == Adopted(ix', members, gs, |gs|)[j]
  {
    hide StatesOwn, StatedBy, Indexes, Contested;
    var a := fs[i];
    assert SetOf(fs) == SetOf(gs);
    if Absolute(a) {
      AdoptsFirst(ix, members, fs, i, |fs|);
      AdoptsFirst(ix', members, gs, j, |gs|);
      forall m, n | 0 <= m < |fs| && 0 <= n < |gs| && StatesOwn(SetOf(fs), members, fs[m], a)
                    && StatesOwn(SetOf(fs), members, gs[n], a)
        ensures fs[m] == gs[n]
      {
        assert gs[n] in fs;
        var n' :| 0 <= n' < |fs| && fs[n'] == gs[n];
        if m != n' { TwoStated(members, fs, a, m, n'); }
      }
      StatedAcross(members, fs, gs, a);
    } else {
      KeepsNorm(ix, members, fs, i, |fs|);
      KeepsNorm(ix', members, gs, j, |gs|);
    }
  }

  lemma StatedAcross(members: map<string, seq<string>>, fs: seq<Finding>, gs: seq<Finding>, a: Finding)
    requires forall f :: f in fs <==> f in gs
    ensures (exists m :: 0 <= m < |fs| && StatesOwn(SetOf(fs), members, fs[m], a)) <==>
            (exists n :: 0 <= n < |gs| && StatesOwn(SetOf(fs), members, gs[n], a))
  {
    hide StatesOwn;
    if m :| 0 <= m < |fs| && StatesOwn(SetOf(fs), members, fs[m], a) {
      assert fs[m] in gs;
      var n :| 0 <= n < |gs| && gs[n] == fs[m];
    }
    if n :| 0 <= n < |gs| && StatesOwn(SetOf(fs), members, gs[n], a) {
      assert gs[n] in fs;
      var m :| 0 <= m < |fs| && fs[m] == gs[n];
    }
  }

  lemma {:induction false} KeepsNorm(ix: Index, members: map<string, seq<string>>, fs: seq<Finding>, i: nat, k: nat)
    requires Indexes(ix, fs) && i < |fs| && !Absolute(fs[i]) && k <= |fs|
    ensures NormAfter(ix, members, fs, i, k) == fs[i].norm
  {
    hide StatedBy, Indexes;
    if k > 0 { KeepsNorm(ix, members, fs, i, k - 1); }
  }

  /** A finding that is contested adopts another norm when the two norm findings trade places. */
  lemma ContestedDependsOnOrder(ix: Index, members: map<string, seq<string>>, fs: seq<Finding>, i: nat)
    returns (gs: seq<Finding>)
    requires Indexes(ix, fs) && Regular(fs) && i < |fs| && Absolute(fs[i]) && Contested(SetOf(fs), members, fs[i])
    ensures |gs| == |fs| && multiset(gs) == multiset(fs) && Regular(gs) && gs[i] == fs[i]
    ensures forall ix' :: Indexes(ix', gs) ==> Adopted(ix', members, gs, |gs|)[i] != Adopted(ix, members, fs, |fs|)[i]
  {
    hide CountsIn, CountedBy, StatedBy, Indexes, UniqueNorms, UniqueAbsolutes, AllowedSeverities;
    var all, a := SetOf(fs), fs[i];
    var f, g :| && f in all && g in all && StatesOwn(all, members, f, a) && StatesOwn(all, members, g, a)
                && f.norm.value.field == HOST_NETWORK && g.norm.value.field == HOST_PID;
    OwnIsNorm(all, members, f, a);
    OwnIsNorm(all, members, g, a);
    var m :| 0 <= m < |fs| && fs[m] == f;
    var n :| 0 <= n < |fs| && fs[n] == g;
    assert HOST_NETWORK != HOST_PID;
    gs := fs[m := g][n := f];
    if m < n {
      SwapAdopts(ix, members, fs, gs, i, m, n);
    } else {
      assert gs == fs[n := f][m := g];
      SwapAdopts(ix, members, fs, gs, i, n, m);
    }
  }

  lemma SwapAdopts(ix: Index, members: map<string, seq<string>>, fs: seq<Finding>, gs: seq<Finding>, i: nat, p: nat,
                   q: nat)
    requires Indexes(ix, fs) && Regular(fs) && i < |fs| && Absolute(fs[i])
    requires p < q < |fs| && gs == fs[p := fs[q]][q := fs[p]]
    requires StatesOwn(SetOf(fs), members, fs[p], fs[i]) && StatesOwn(SetOf(fs), members, fs[q], fs[i])
    ensures multiset(gs) == multiset(fs) && Regular(gs) && gs[i] == fs[i]
    ensures forall ix' :: Indexes(ix', gs) ==> Adopted(ix', members, gs, |gs|)[i] != Adopted(ix, members, fs, |fs|)[i]
  {
    hide StatesOwn, StatedBy, Indexes, UniqueNorms, UniqueAbsolutes, AllowedSeverities;
    OwnIsNorm(SetOf(fs), members, fs[p], fs[i]);
    OwnIsNorm(SetOf(fs), members, fs[q], fs[i]);
    SwapKeeps(fs, gs, p, q);
    OnlyTheTwo(members, fs, fs[i], p, q);
    AdoptsFirstOfTwo(ix, members, fs, i, p, q);
    forall ix' | Indexes(ix', gs)
      ensures Adopted(ix', members, gs, |gs|)[i] != Adopted(ix, members, fs, |fs|)[i]
    {
      AdoptsFirstOfTwo(ix', members, gs, i, p, q);
    }
  }

  lemma AdoptsFirstOfTwo(ix: Index, members: map<string, seq<string>>, fs: seq<Finding>, i: nat, p: nat, q: nat)
    requires Indexes(ix, fs) && Regular(fs) && i < |fs| && Absolute(fs[i]) && p < q < |fs|
    requires StatesOwn(SetOf(fs), members, fs[p], fs[i]) && StatesOwn(SetOf(fs), members, fs[q], fs[i])
    ensures Adopted(ix, members, fs, |fs|)[i].norm == fs[p].norm
  {
    hide StatesOwn, StatedBy, Indexes, UniqueNorms, UniqueAbsolutes, AllowedSeverities;
    OnlyTheTwo(members, fs, fs[i], p, q);
    AdoptsFirst(ix, members, fs, i, |fs|);
  }

  lemma SwapKeeps(fs: seq<Finding>, gs: seq<Finding>, p: nat, q: nat)
    requires p < q < |fs| && gs == fs[p := fs[q]][q := fs[p]] && Regular(fs)
    ensures multiset(gs) == multiset(fs) && SetOf(gs) == SetOf(fs) && Regular(gs)
  {
    assert multiset(gs) == multiset(fs) by {
      SwapCounts(fs, gs, p, q);
    }
    forall f ensures f in gs <==> f in fs {
      assert f in multiset(gs) <==> f in multiset(fs);
    }
    forall i, j | 0 <= i < j < |gs| && !Absolute(gs[i]) && !Absolute(gs[j]) ensures NormKey(gs[i]) != NormKey(gs[j]) {
      var i', j' := if i == p then q else if i == q then p else i, if j == p then q else if j == q then p else j;
      assert gs[i] == fs[i'] && gs[j] == fs[j'] && i' != j';
    }
    forall i, j | 0 <= i < j < |gs| && Absolute(gs[i]) && Absolute(gs[j])
      ensures (gs[i].cluster, gs[i].rule) != (gs[j].cluster, gs[j].rule)
    {
      var i', j' := if i == p then q else if i == q then p else i, if j == p then q else if j == q then p else j;
      assert gs[i] == fs[i'] && gs[j] == fs[j'] && i' != j';
    }
  }

  lemma SwapCounts<T>(s: seq<T>, t: seq<T>, p: nat, q: nat)
    requires p < q < |s| && t == s[p := s[q]][q := s[p]]
    ensures multiset(t) == multiset(s)
  {
    var a, b, c := s[..p], s[p + 1..q], s[q + 1..];
    assert s == a + [s[p]] + b + [s[q]] + c;
    assert t == a + [s[q]] + b + [s[p]] + c;
    SwappedParts(a, s[p], b, s[q], c);
  }

  lemma SwappedParts<T>(a: seq<T>, x: T, b: seq<T>, y: T, c: seq<T>)
    ensures multiset(a + [x] + b + [y] + c) == multiset(a + [y] + b + [x] + c)
  {
  }

  /** Of fs, a states no other than the findings at p and q. */
  lemma OnlyTheTwo(members: map<string, seq<string>>, fs: seq<Finding>, a: Finding, p: nat, q: nat)
    requires Regular(fs) && p < |fs| && q < |fs| && p != q
    requires StatesOwn(SetOf(fs), members, fs[p], a) && StatesOwn(SetOf(fs), members, fs[q], a)
    ensures forall k :: 0 <= k < |fs| && StatesOwn(SetOf(fs), members, fs[k], a) ==> k == p || k == q
    ensures fs[p].norm != fs[q].norm
  {
    hide StatesOwn;
    TwoStated(members, fs, a, p, q);
    forall k | 0 <= k < |fs| && StatesOwn(SetOf(fs), members, fs[k], a)
      ensures k == p || k == q
    {
      if k != p && k != q {
        TwoStated(members, fs, a, k, p);
        TwoStated(members, fs, a, k, q);
        assert false;
      }
    }
  }

  /** One cluster, one absolute finding, and two norm findings it counts, the last with marks. */
  function Twice(first: FieldRef, second: FieldRef, marks: seq<Mark>): seq<Finding> {
    [Finding("a", HOST_NAMESPACES, Critical, None, []),
     Finding("a", "outlier", Critical, Some(Norm(first, "fleet")), []),
     Finding("a", "outlier", Critical, Some(Norm(second, "fleet")), marks)]
  }

  ghost predicate TwoHostFields(first: FieldRef, second: FieldRef) {
    (first == HOST_NETWORK && second == HOST_PID) || (first == HOST_PID && second == HOST_NETWORK)
  }

  lemma HostFields(first: FieldRef, second: FieldRef)
    requires TwoHostFields(first, second)
    ensures CountedBy(first) == CountedBy(second) == HOST_NAMESPACES && HOST_NAMESPACES != ""
    ensures first != second && Declared(first) == Declared(second) == Critical
  {
  }

  lemma TwiceRegular(first: FieldRef, second: FieldRef, marks: seq<Mark>)
    requires TwoHostFields(first, second)
    ensures Regular(Twice(first, second, marks))
  {
    HostFields(first, second);
    hide CountedBy, Declared, RedundantWith, TwoHostFields;
  }

  lemma TwiceCounts(first: FieldRef, second: FieldRef, marks: seq<Mark>, i: nat)
    requires TwoHostFields(first, second) && 0 < i < 3
    ensures var fs := Twice(first, second, marks);
            CountsIn(SetOf(fs), FLEET, "a", fs[i].norm.value.field, "fleet", fs[0])
  {
    HostFields(first, second);
    hide CountedBy, Declared, RedundantWith, TwoHostFields;
    var fs := Twice(first, second, marks);
    assert fs[0] in SetOf(fs) && fs[1] in SetOf(fs) && fs[2] in SetOf(fs);
    assert OffNorm(SetOf(fs), "a", fs[i].norm.value.field, "fleet");
  }

  /** Both norm findings are stated by the absolute one. */
  lemma TwiceStated(ix: Index, first: FieldRef, second: FieldRef, marks: seq<Mark>, i: nat)
    requires TwoHostFields(first, second) && Indexes(ix, Twice(first, second, marks)) && i < 3
    ensures StatedBy(ix, FLEET, Twice(first, second, marks), i) == if i == 0 then None else Some(0)
    ensures i > 0 ==> StatedIn(SetOf(Twice(first, second, marks)), FLEET, Twice(first, second, marks)[i])
  {
    hide CountedBy, Declared, RedundantWith, TwoHostFields, Indexes, CountsIn, Counting,
         UniqueAbsolutes, UniqueNorms, AllowedSeverities;
    var fs := Twice(first, second, marks);
    if i > 0 {
      TwiceRegular(first, second, marks);
      TwiceCounts(first, second, marks, i);
      CountingAgrees(ix, FLEET, fs, "a", fs[i].norm.value.field, "fleet");
      CountingIsAbsolute(ix, FLEET, fs, "a", fs[i].norm.value.field, "fleet");
    }
  }

  /** The absolute finding adopts the norm that stands first. */
  lemma TwiceAdopts(ix: Index, first: FieldRef, second: FieldRef)
    requires TwoHostFields(first, second) && Indexes(ix, Twice(first, second, []))
    ensures Adopted(ix, FLEET, Twice(first, second, []), 3)[0].norm == Some(Norm(first, "fleet"))
  {
    hide TwoHostFields, StatedBy, Indexes;
    var fs := Twice(first, second, []);
    TwiceStated(ix, first, second, [], 0);
    TwiceStated(ix, first, second, [], 1);
    TwiceStated(ix, first, second, [], 2);
    assert NormAfter(ix, FLEET, fs, 0, 1) == None;
    assert NormAfter(ix, FLEET, fs, 0, 2) == fs[1].norm;
    assert NormAfter(ix, FLEET, fs, 0, 3) == fs[1].norm;
  }

  lemma TwoHosts()
    ensures TwoHostFields(HOST_NETWORK, HOST_PID) && TwoHostFields(HOST_PID, HOST_NETWORK) && HOST_NETWORK != HOST_PID
  {
    HostFields(HOST_NETWORK, HOST_PID);
  }

  lemma TwiceSwapped(first: FieldRef, second: FieldRef)
    ensures multiset(Twice(first, second, [])) == multiset(Twice(second, first, []))
  {
    var fs := Twice(first, second, []);
    assert Twice(second, first, []) == [fs[0], fs[2], fs[1]];
  }

  /** The comment says the order of the findings does not matter. Which are dropped does not depend
      on it; which norm an absolute finding adopts does: two fields counted by one rule. */
  lemma AdoptedNormDependsOnOrder(ix: Index, ix': Index) returns (fs: seq<Finding>, gs: seq<Finding>)
    ensures |fs| == |gs| == 3 && multiset(fs) == multiset(gs) && Regular(fs) && Regular(gs) && fs[0] == gs[0]
    ensures Indexes(ix, fs) && Indexes(ix', gs) ==> Adopted(ix, FLEET, fs, 3)[0] != Adopted(ix', FLEET, gs, 3)[0]
  {
    fs, gs := Twice(HOST_NETWORK, HOST_PID, []), Twice(HOST_PID, HOST_NETWORK, []);
    TwoHosts();
    TwiceRegular(HOST_NETWORK, HOST_PID, []);
    TwiceRegular(HOST_PID, HOST_NETWORK, []);
    hide CountedBy, Declared, RedundantWith, Indexes, Adopted, Regular, TwoHostFields;
    TwiceSwapped(HOST_NETWORK, HOST_PID);
    if Indexes(ix, fs) && Indexes(ix', gs) {
      TwiceAdopts(ix, HOST_NETWORK, HOST_PID);
      TwiceAdopts(ix', HOST_PID, HOST_NETWORK);
    }
  }

  /** A norm finding that marked another cluster would take that cluster's status with it. */
  lemma MarkedNormHidesStatus(ix: Index) returns (fs: seq<Finding>)
    ensures StatusFrom("b", fs, 0) == CriticalCluster
    ensures Indexes(ix, fs) ==> StatusFrom("b", Pruned(ix, FLEET, fs), 0) == HealthyCluster
  {
    fs := Twice(HOST_NETWORK, HOST_PID, [Mark("b", Critical)]);
    assert "a" != "b";
    MarksOnPositive("b", Critical, fs[2].marks);
    assert Charged("b", Critical, fs) >= MarksOn("b", Critical, fs[2].marks);
    if Indexes(ix, fs) {
      TwiceLeaves(ix, [Mark("b", Critical)]);
      var left := Pruned(ix, FLEET, fs);
      ChargedPositive("b", Critical, left);
      ChargedPositive("b", Warning, left);
    }
  }

  lemma {:induction false} OnlyFirstKept<T>(s: seq<T>, drop: seq<bool>)
    requires |drop| == |s| > 0 && forall i :: 0 <= i < |s| ==> (drop[i] <==> i > 0)
    ensures Unflagged(s, drop) == [s[0]]
  {
    if |s| > 1 {
      OnlyFirstKept(s[..|s| - 1], drop[..|s| - 1]);
    }
  }

  /** Only the absolute finding is left. */
  lemma TwiceLeaves(ix: Index, marks: seq<Mark>)
    requires Indexes(ix, Twice(HOST_NETWORK, HOST_PID, marks))
    ensures var left := Pruned(ix, FLEET, Twice(HOST_NETWORK, HOST_PID, marks));
            |left| == 1 && left[0].cluster == "a" && left[0].marks == []
  {
    var fs := Twice(HOST_NETWORK, HOST_PID, marks);
    TwiceRegular(HOST_NETWORK, HOST_PID, marks);
    hide Regular, Indexes, Restated, NormAfter, StatedIn, StatedFrom, Displacer;
    var drop, all := Restated(ix, FLEET, fs, 3), Adopted(ix, FLEET, fs, 3);
    forall i | 0 <= i < 3
      ensures drop[i] <==> i > 0
    {
      TwiceStated(ix, HOST_NETWORK, HOST_PID, marks, i);
      DropsTheRedundant(ix, FLEET, fs, i);
    }
    OnlyFirstKept(all, drop);
  }

  // ----- Severities the table does not allow

  const NON_ROOT := FieldRef("workload-security", "run_as_non_root_containers")
  const CONTAINERS := FieldRef("workload-security", "baseline_containers")
  const PODS := FieldRef("workload-security", "total_pods")

  function NormFinding(field: FieldRef, severity: Severity): Finding {
    Finding("a", "outlier", severity, Some(Norm(field, "fleet")), [])
  }

  /** The chain of the table: each field restates the next, and no rule counts them. */
  lemma Chain()
    ensures RedundantWith(NON_ROOT) == [CONTAINERS] && RedundantWith(CONTAINERS) == [PODS] && RedundantWith(PODS) == []
    ensures CountedBy(CONTAINERS) == CountedBy(PODS) == CountedBy(NON_ROOT) == ""
    ensures NON_ROOT != CONTAINERS && CONTAINERS != PODS && NON_ROOT != PODS
  {
  }

  lemma NothingStated(ix: Index, members: map<string, seq<string>>, fs: seq<Finding>, i: nat)
    requires Indexes(ix, fs) && i < |fs| && !Absolute(fs[i]) && CountedBy(fs[i].norm.value.field) == ""
    ensures StatedBy(ix, members, fs, i).None?
  {
  }

  /** A graver finding i displaces the one finding j on its only target, which no rule counts. */
  lemma DisplacesOne(ix: Index, members: map<string, seq<string>>, fs: seq<Finding>, i: nat, j: nat, drop: seq<bool>)
    requires Indexes(ix, fs) && UniqueNorms(fs) && i < |fs| && j < |fs| && |drop| == |fs|
    requires !Absolute(fs[i]) && !Absolute(fs[j]) && Rank(fs[j].severity) < Rank(fs[i].severity)
    requires fs[j].cluster == fs[i].cluster && CountedBy(fs[j].norm.value.field) == ""
    ensures Restate(ix, members, fs, i, [fs[j].norm.value.field], drop) == drop[j := true]
  {
    hide CountedBy, RedundantWith, Declared, Indexes;
    NormIsOnly(ix, fs, (fs[i].cluster, fs[j].norm.value.field), j);
    var targets := [fs[j].norm.value.field];
    assert targets[1..] == [];
    RestateNothing(ix, members, fs, i, drop[j := true]);
    NormAgrees(ix, fs, (fs[i].cluster, targets[0]));
  }

  lemma RestateNothing(ix: Index, members: map<string, seq<string>>, fs: seq<Finding>, i: nat, drop: seq<bool>)
    requires Indexes(ix, fs) && i < |fs| && !Absolute(fs[i]) && |drop| == |fs|
    ensures Restate(ix, members, fs, i, [], drop) == drop
  {
  }

  /** Three norm findings of the chain, in this order. */
  ghost predicate ChainFindings(fs: seq<Finding>) {
    && |fs| == 3 && UniqueNorms(fs)
    && (forall i :: 0 <= i < 3 ==>
          !Absolute(fs[i]) && fs[i].cluster == "a" && CountedBy(fs[i].norm.value.field) == "")
  }

  /** The top of the chain judged first displaces the middle, which then displaces nothing. */
  lemma TopFirst(ix: Index, members: map<string, seq<string>>, fs: seq<Finding>)
    requires Indexes(ix, fs) && ChainFindings(fs)
    requires RedundantWith(fs[0].norm.value.field) == [fs[1].norm.value.field]
    requires RedundantWith(fs[2].norm.value.field) == []
    requires Rank(fs[1].severity) < Rank(fs[0].severity)
    ensures Restated(ix, members, fs, 3) == [false, true, false]
  {
    hide CountedBy, RedundantWith, Declared, Indexes, Restate, UniqueNorms;
    NothingStatedIn(ix, members, fs);
    DisplacesOne(ix, members, fs, 0, 1, [false, false, false]);
    assert Restated(ix, members, fs, 1) == [false, true, false];
    assert Restated(ix, members, fs, 2) == [false, true, false];
    RestateNothing(ix, members, fs, 2, [false, true, false]);
  }

  /** The middle judged first displaces the end, and is displaced by the top only then. */
  lemma MiddleFirst(ix: Index, members: map<string, seq<string>>, fs: seq<Finding>)
    requires Indexes(ix, fs) && ChainFindings(fs)
    requires RedundantWith(fs[0].norm.value.field) == [fs[2].norm.value.field]
    requires RedundantWith(fs[1].norm.value.field) == [fs[0].norm.value.field]
    requires Rank(fs[2].severity) < Rank(fs[0].severity) < Rank(fs[1].severity)
    ensures Restated(ix, members, fs, 3) == [true, false, true]
  {
    hide CountedBy, RedundantWith, Declared, Indexes, Restate, UniqueNorms;
    NothingStatedIn(ix, members, fs);
    DisplacesOne(ix, members, fs, 0, 2, [false, false, false]);
    assert Restated(ix, members, fs, 1) == [false, false, true];
    DisplacesOne(ix, members, fs, 1, 0, [false, false, true]);
    assert Restated(ix, members, fs, 2) == [true, false, true];
  }

  /** Graver norm findings than the table declares make what is dropped depend on the order: the middle of the
      chain is dropped before or after it displaced the end. */
  lemma DropsDependOnOrder(ix: Index, ix': Index, members: map<string, seq<string>>)
    returns (fs: seq<Finding>, gs: seq<Finding>)
    ensures |fs| == |gs| == 3 && multiset(fs) == multiset(gs) && fs[2] == gs[2]
    ensures UniqueNorms(fs) && UniqueAbsolutes(fs)
    ensures Indexes(ix, fs) && Indexes(ix', gs) ==> !Restated(ix, members, fs, 3)[2] && Restated(ix', members, gs, 3)[2]
  {
    Chain();
    hide CountedBy, RedundantWith, Declared, Indexes, Restated;
    var top, middle, end := NormFinding(NON_ROOT, Critical), NormFinding(CONTAINERS, Warning), NormFinding(PODS, Info);
    fs, gs := [top, middle, end], [middle, top, end];
    assert gs == [fs[1], fs[0], fs[2]];
    if Indexes(ix, fs) && Indexes(ix', gs) {
      TopFirst(ix, members, fs);
      MiddleFirst(ix', members, gs);
    }
  }

  lemma NothingStatedIn(ix: Index, members: map<string, seq<string>>, fs: seq<Finding>)
    requires Indexes(ix, fs) && |fs| == 3
    requires forall i :: 0 <= i < 3 ==> !Absolute(fs[i]) && CountedBy(fs[i].norm.value.field) == ""
    ensures Restated(ix, members, fs, 0) == [false, false, false]
  {
    NothingStated(ix, members, fs, 0);
    NothingStated(ix, members, fs, 1);
    NothingStated(ix, members, fs, 2);
    hide StatedBy;
  }
}
