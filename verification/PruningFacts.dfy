/** What dropRedundant of internal/report/findings.go promises: no severity is hidden, health is kept,
    and what is dropped does not depend on the order of the findings. */
module PruningFacts {
  import opened FieldTable
  import opened Findings
  import opened Pruning

  // ----- Nothing hides a severity

  /** A reason to drop finding i: w stands on the same cluster, and is an absolute finding at least
      as severe, or a norm finding that is more severe or states the restated field as severely. */
  ghost predicate Outweighs(fs: seq<Finding>, w: nat, i: nat) {
    && w < |fs| && i < |fs| && !Absolute(fs[i]) && fs[w].cluster == fs[i].cluster
    && (if Absolute(fs[w]) then Rank(fs[w].severity) >= Rank(fs[i].severity)
        else Rank(fs[w].severity) > Rank(fs[i].severity)
             || (Rank(fs[w].severity) == Rank(fs[i].severity)
                 && fs[w].norm.value.field in RedundantWith(fs[i].norm.value.field)))
  }

  /** Every finding dropped has such a reason; absolute findings are never dropped. */
  ghost predicate Excused(fs: seq<Finding>, drop: seq<bool>) {
    |drop| == |fs| && forall i :: 0 <= i < |fs| && drop[i] ==> exists w :: Outweighs(fs, w, i)
  }

  lemma CountingIsAbsolute(ix: Index, members: map<string, seq<string>>, fs: seq<Finding>, cluster: string,
                           field: FieldRef, scope: string)
    requires Indexes(ix, fs) && Counting(ix, members, cluster, field, scope).Some?
    ensures var j := Counting(ix, members, cluster, field, scope).value;
            j < |fs| && Absolute(fs[j]) && fs[j].cluster == cluster && fs[j].rule == CountedBy(field)
  {
  }

  lemma {:induction false} RestateExcuses(ix: Index, members: map<string, seq<string>>, fs: seq<Finding>, i: nat,
                                          targets: seq<FieldRef>, drop: seq<bool>)
    requires Indexes(ix, fs) && i < |fs| && !Absolute(fs[i]) && Excused(fs, drop)
    requires forall t :: t in targets ==> t in RedundantWith(fs[i].norm.value.field)
    ensures Excused(fs, Restate(ix, members, fs, i, targets, drop))
  {
    if targets != [] {
      hide Singles, RedundantWith, CountedBy;
      var f := fs[i];
      assert targets[0] in targets && forall t :: t in targets[1..] ==> t in targets;
      var counted := Counting(ix, members, f.cluster, targets[0], f.norm.value.scope);
      if counted.Some? && Rank(fs[counted.value].severity) >= Rank(f.severity) {
        assert Outweighs(fs, counted.value, i);
      } else if (f.cluster, targets[0]) !in ix.norm {
        RestateExcuses(ix, members, fs, i, targets[1..], drop);
      } else {
        var j := ix.norm[(f.cluster, targets[0])];
        if Rank(fs[j].severity) >= Rank(f.severity) {
          assert Outweighs(fs, j, i);
        } else {
          assert Outweighs(fs, i, j);
          RestateExcuses(ix, members, fs, i, targets[1..], if counted.None? then drop[j := true] else drop);
        }
      }
    }
  }

  lemma {:induction false} RestatedExcused(ix: Index, members: map<string, seq<string>>, fs: seq<Finding>, k: nat)
    requires Indexes(ix, fs) && k <= |fs|
    ensures Excused(fs, Restated(ix, members, fs, k))
  {
    hide Restate, RedundantWith, CountedBy, Counting;
    if k == 0 {
      forall i | 0 <= i < |fs| && StatedBy(ix, members, fs, i).Some?
        ensures exists w :: Outweighs(fs, w, i)
      {
        var n := fs[i].norm.value;
        CountingIsAbsolute(ix, members, fs, fs[i].cluster, n.field, n.scope);
        assert Outweighs(fs, StatedBy(ix, members, fs, i).value, i);
      }
    } else {
      RestatedExcused(ix, members, fs, k - 1);
      if !Absolute(fs[k - 1]) {
        RestateExcuses(ix, members, fs, k - 1, RedundantWith(fs[k - 1].norm.value.field),
                       Restated(ix, members, fs, k - 1));
      }
    }
  }

  /** A chain of reasons ends at a finding that is kept. */
  lemma {:induction false} KeptReason(fs: seq<Finding>, drop: seq<bool>, i: nat) returns (w: nat)
    requires Excused(fs, drop) && i < |fs| && drop[i]
    ensures w < |fs| && !drop[w] && fs[w].cluster == fs[i].cluster && Rank(fs[w].severity) >= Rank(fs[i].severity)
    decreases 3 - Rank(fs[i].severity), if Absolute(fs[i]) then 0 else Depth(fs[i].norm.value.field)
  {
    w :| Outweighs(fs, w, i);
    if drop[w] {
      if Rank(fs[w].severity) == Rank(fs[i].severity) {
        var u :| Outweighs(fs, u, w);
        RestatedIsShallower(fs[i].norm.value.field, fs[w].norm.value.field);
      }
      w := KeptReason(fs, drop, w);
    }
  }

  ghost predicate KeptAt<T>(s: seq<T>, drop: seq<bool>, i: nat, x: T)
    requires |drop| == |s|
  {
    i < |s| && !drop[i] && s[i] == x
  }

  lemma {:induction false} UnflaggedHas<T>(s: seq<T>, drop: seq<bool>, x: T)
    requires |drop| == |s|
    ensures x in Unflagged(s, drop) <==> exists i: nat :: KeptAt(s, drop, i, x)
  {
    if s != [] {
      var k := |s| - 1;
      UnflaggedHas(s[..k], drop[..k], x);
      assert forall i: nat :: i < k ==> (KeptAt(s, drop, i, x) <==> KeptAt(s[..k], drop[..k], i, x));
      assert KeptAt(s, drop, k, x) <==> !drop[k] && s[k] == x;
      assert (exists i: nat :: KeptAt(s, drop, i, x)) <==>
             KeptAt(s, drop, k, x) || exists i: nat :: KeptAt(s[..k], drop[..k], i, x);
    }
  }

  /** f and g are one finding but for the norm adopted. */
  ghost predicate SameFinding(f: Finding, g: Finding) {
    f.(norm := g.norm) == g
  }

  /** What is left is what was given, but for adopted norms, and holds every absolute finding. */
  lemma PrunedIsKept(ix: Index, members: map<string, seq<string>>, fs: seq<Finding>)
    requires Indexes(ix, fs)
    ensures forall g :: g in Pruned(ix, members, fs) ==> exists f :: f in fs && SameFinding(f, g)
    ensures forall i :: 0 <= i < |fs| && !Restated(ix, members, fs, |fs|)[i] ==>
              exists g :: g in Pruned(ix, members, fs) && SameFinding(fs[i], g)
    ensures forall f :: f in fs && Absolute(f) ==> exists g :: g in Pruned(ix, members, fs) && SameFinding(f, g)
  {
    hide Restated, NormAfter;
    var drop, all := Restated(ix, members, fs, |fs|), Adopted(ix, members, fs, |fs|);
    RestatedExcused(ix, members, fs, |fs|);
    forall g | g in Pruned(ix, members, fs)
      ensures exists f :: f in fs && SameFinding(f, g)
    {
      UnflaggedHas(all, drop, g);
      var i: nat :| KeptAt(all, drop, i, g);
      assert fs[i] in fs && SameFinding(fs[i], g);
    }
    forall i | 0 <= i < |fs| && !drop[i]
      ensures exists g :: g in Pruned(ix, members, fs) && SameFinding(fs[i], g)
    {
      UnflaggedHas(all, drop, all[i]);
      assert KeptAt(all, drop, i, all[i]);
      assert SameFinding(fs[i], all[i]);
    }
    forall f | f in fs && Absolute(f)
      ensures exists g :: g in Pruned(ix, members, fs) && SameFinding(f, g)
    {
      var i :| 0 <= i < |fs| && fs[i] == f;
      assert !drop[i];
    }
  }

  /** For every finding given, one at least as severe is left on its cluster. */
  lemma SeverityNeverHidden(ix: Index, members: map<string, seq<string>>, fs: seq<Finding>, f: Finding)
    requires Indexes(ix, fs) && f in fs
    ensures exists g :: g in Pruned(ix, members, fs) && g.cluster == f.cluster && Rank(g.severity) >= Rank(f.severity)
  {
    hide Restated, Pruned;
    var drop := Restated(ix, members, fs, |fs|);
    RestatedExcused(ix, members, fs, |fs|);
    PrunedIsKept(ix, members, fs);
    var i: nat :| i < |fs| && fs[i] == f;
    var w := i;
    if drop[i] { w := KeptReason(fs, drop, i); }
    var g :| g in Pruned(ix, members, fs) && SameFinding(fs[w], g);
  }

  /** No cluster's status changes, when no norm finding marks clusters. */
  lemma StatusUnchanged(ix: Index, members: map<string, seq<string>>, fs: seq<Finding>, cluster: string, blind: nat)
    requires Indexes(ix, fs) && forall f :: f in fs && !Absolute(f) ==> f.marks == []
    ensures StatusFrom(cluster, Pruned(ix, members, fs), blind) == StatusFrom(cluster, fs, blind)
  {
    hide Pruned, Charged;
    var left := Pruned(ix, members, fs);
    ChargesAgree(ix, members, fs, cluster, Critical);
    ChargesAgree(ix, members, fs, cluster, Warning);
    ChargedPositive(cluster, Critical, fs);
    ChargedPositive(cluster, Critical, left);
    ChargedPositive(cluster, Warning, fs);
    ChargedPositive(cluster, Warning, left);
  }

  /** The health of the whole fleet is the same before and after pruning. */
  lemma HealthUnchanged(ix: Index, members: map<string, seq<string>>, fs: seq<Finding>, clusters: seq<string>,
                        observed: string -> Observed)
    requires Indexes(ix, fs) && forall f :: f in fs && !Absolute(f) ==> f.marks == []
    ensures HealthsOf(clusters, observed, Pruned(ix, members, fs)) == HealthsOf(clusters, observed, fs)
  {
    hide Pruned, StatusFrom;
    forall i | 0 <= i < |clusters|
      ensures HealthsOf(clusters, observed, Pruned(ix, members, fs))[i] == HealthsOf(clusters, observed, fs)[i]
    {
      StatusUnchanged(ix, members, fs, clusters[i], observed(clusters[i]).blindScanners);
    }
  }

  /** What charges a cluster after pruning charged it before. */
  lemma ChargeWasThere(ix: Index, members: map<string, seq<string>>, fs: seq<Finding>, cluster: string, s: Severity)
    requires Indexes(ix, fs) && exists g :: g in Pruned(ix, members, fs) && Charges(g, cluster, s)
    ensures exists f :: f in fs && Charges(f, cluster, s)
  {
    hide Pruned;
    PrunedIsKept(ix, members, fs);
    var g :| g in Pruned(ix, members, fs) && Charges(g, cluster, s);
    var f :| f in fs && SameFinding(f, g);
    assert Charges(f, cluster, s);
  }

  /** What charged a cluster still does, or something critical does. */
  lemma ChargeKept(ix: Index, members: map<string, seq<string>>, fs: seq<Finding>, cluster: string, s: Severity)
    requires Indexes(ix, fs) && forall f :: f in fs && !Absolute(f) ==> f.marks == []
    requires s == Critical || s == Warning
    requires exists f :: f in fs && Charges(f, cluster, s)
    ensures exists g :: g in Pruned(ix, members, fs) && (Charges(g, cluster, s) || Charges(g, cluster, Critical))
  {
    hide Pruned;
    var left := Pruned(ix, members, fs);
    var f :| f in fs && Charges(f, cluster, s);
    if Mark(cluster, s) in f.marks {
      PrunedIsKept(ix, members, fs);
      var g :| g in left && SameFinding(f, g);
      assert Charges(g, cluster, s);
    } else {
      SeverityNeverHidden(ix, members, fs, f);
      var g :| g in left && g.cluster == f.cluster && Rank(g.severity) >= Rank(f.severity);
      assert Charges(g, cluster, s) || Charges(g, cluster, Critical);
    }
  }

  lemma ChargesAgree(ix: Index, members: map<string, seq<string>>, fs: seq<Finding>, cluster: string, s: Severity)
    requires Indexes(ix, fs) && forall f :: f in fs && !Absolute(f) ==> f.marks == []
    requires s == Critical || s == Warning
    ensures var left := Pruned(ix, members, fs);
            && ((exists g :: g in left && Charges(g, cluster, s)) ==> exists f :: f in fs && Charges(f, cluster, s))
            && ((exists f :: f in fs && Charges(f, cluster, s)) ==>
                  exists g :: g in left && (Charges(g, cluster, s) || Charges(g, cluster, Critical)))
  {
    hide Pruned;
    if exists g :: g in Pruned(ix, members, fs) && Charges(g, cluster, s) {
      ChargeWasThere(ix, members, fs, cluster, s);
    }
    if exists f :: f in fs && Charges(f, cluster, s) {
      ChargeKept(ix, members, fs, cluster, s);
    }
  }
}
