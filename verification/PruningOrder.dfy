/** When the order of the findings matters to dropRedundant of internal/report/findings.go: not
    for what is dropped, but for the norms adopted. */
module PruningOrder {
  import opened FieldTable
  import opened Findings
  import opened Pruning
  import opened Wrappers
  import opened SetFacts

  // ----- Which findings are redundant, whatever their order

  /** A cluster holds the norm of the field in the scope. */
  ghost predicate OffNorm(all: set<Finding>, cluster: string, field: FieldRef, scope: string) {
    exists g :: g in all && !Absolute(g) && ScopedKey(g) == (cluster, field, scope)
  }

  /** Every cluster of the scope on which the rule fired is off the norm. */
  ghost predicate SinglesIn(all: set<Finding>, members: map<string, seq<string>>, rule: string, field: FieldRef,
                            scope: string) {
    && scope in members
    && forall a :: a in all && Absolute(a) && a.rule == rule && a.cluster in members[scope] ==>
         OffNorm(all, a.cluster, field, scope)
  }

  /** a is the absolute finding that counts the field on the cluster and singles it out. */
  ghost predicate CountsIn(all: set<Finding>, members: map<string, seq<string>>, cluster: string, field: FieldRef,
                           scope: string, a: Finding) {
    && a in all && Absolute(a) && a.cluster == cluster && a.rule == CountedBy(field) && a.rule != ""
    && SinglesIn(all, members, a.rule, field, scope)
  }

  /** An absolute finding counts f's own field, no less severe. */
  ghost predicate StatedIn(all: set<Finding>, members: map<string, seq<string>>, f: Finding)
    requires !Absolute(f)
  {
    exists a :: CountsIn(all, members, f.cluster, f.norm.value.field, f.norm.value.scope, a) &&
                Rank(a.severity) >= Rank(f.severity)
  }

  /** g states the field t for norm finding f. */
  ghost predicate StatesFor(all: set<Finding>, members: map<string, seq<string>>, f: Finding, t: FieldRef, g: Finding)
    requires !Absolute(f)
  {
    || CountsIn(all, members, f.cluster, t, f.norm.value.scope, g)
    || (g in all && !Absolute(g) && NormKey(g) == (f.cluster, t))
  }

  /** Field t is stated for f, no less severely. */
  ghost predicate StatesAt(all: set<Finding>, members: map<string, seq<string>>, f: Finding, t: FieldRef)
    requires !Absolute(f)
  {
    exists g :: StatesFor(all, members, f, t, g) && Rank(g.severity) >= Rank(f.severity)
  }

  /** g's norm on target k is the only statement of that field, and a lesser one, so f takes its place:
      f is not itself stated by a target up to k. */
  ghost predicate Displaces(all: set<Finding>, members: map<string, seq<string>>, f: Finding, k: nat, g: Finding)
    requires !Absolute(f) && !Absolute(g)
  {
    var targets := RedundantWith(f.norm.value.field);
    && k < |targets| && NormKey(g) == (f.cluster, targets[k])
    && (forall k' :: 0 <= k' <= k ==> !StatesAt(all, members, f, targets[k']))
    && !exists a :: CountsIn(all, members, f.cluster, targets[k], f.norm.value.scope, a)
  }

  /** f states a field at target k or later. */
  ghost predicate StatedFrom(all: set<Finding>, members: map<string, seq<string>>, f: Finding, k: nat)
    requires !Absolute(f)
  {
    var targets := RedundantWith(f.norm.value.field);
    exists k' :: k <= k' < |targets| && StatesAt(all, members, f, targets[k'])
  }

  /** f displaces g at target k or later. */
  ghost predicate DisplacesFrom(all: set<Finding>, members: map<string, seq<string>>, f: Finding, k: nat, g: Finding)
    requires !Absolute(f) && !Absolute(g)
  {
    exists k' :: k <= k' && Displaces(all, members, f, k', g)
  }

  /** Norm finding f is redundant: stated by an absolute finding on its own field, by a finding on a
      field it restates, or displaced by one that restates its field more severely. */
  ghost predicate Redundant(all: set<Finding>, members: map<string, seq<string>>, f: Finding) {
    && !Absolute(f)
    && (|| StatedIn(all, members, f)
        || StatedFrom(all, members, f, 0)
        || exists g :: Displacer(all, members, g, f))
  }

  ghost predicate Displacer(all: set<Finding>, members: map<string, seq<string>>, g: Finding, f: Finding)
    requires !Absolute(f)
  {
    g in all && !Absolute(g) && !StatedIn(all, members, g) && DisplacesFrom(all, members, g, 0, f)
  }

  ghost predicate UniqueNorms(fs: seq<Finding>) {
    forall i, j :: 0 <= i < j < |fs| && !Absolute(fs[i]) && !Absolute(fs[j]) ==> NormKey(fs[i]) != NormKey(fs[j])
  }

  ghost predicate UniqueAbsolutes(fs: seq<Finding>) {
    forall i, j :: 0 <= i < j < |fs| && Absolute(fs[i]) && Absolute(fs[j]) ==>
      (fs[i].cluster, fs[i].rule) != (fs[j].cluster, fs[j].rule)
  }

  ghost predicate AllowedSeverities(fs: seq<Finding>) {
    forall f :: f in fs && !Absolute(f) ==> f.severity == Declared(f.norm.value.field) || f.severity == Info
  }

  /** One norm finding per cluster and field, one absolute finding per cluster and rule, and norm
      findings as severe as the table declares or info. */
  ghost predicate Regular(fs: seq<Finding>) {
    UniqueNorms(fs) && UniqueAbsolutes(fs) && AllowedSeverities(fs)
  }

  // ----- The index computes the same judgments

  lemma SinglesAgrees(ix: Index, members: map<string, seq<string>>, fs: seq<Finding>, rule: string, field: FieldRef,
                      scope: string)
    requires Indexes(ix, fs)
    ensures Singles(ix, members, rule, field, scope) <==> SinglesIn(SetOf(fs), members, rule, field, scope)
  {
    forall c ensures OffNorm(SetOf(fs), c, field, scope) <==> (c, field, scope) in ix.normIn {
      if (c, field, scope) in ix.normIn {
        var i :| 0 <= i < |fs| && !Absolute(fs[i]) && ScopedKey(fs[i]) == (c, field, scope);
        assert fs[i] in fs;
      }
    }
    forall c ensures (rule in ix.firedOn && c in ix.firedOn[rule]) <==>
                     exists a :: a in fs && Absolute(a) && a.rule == rule && a.cluster == c {
      assert (rule in ix.firedOn && c in ix.firedOn[rule]) <==> (c, rule) in ix.absolute;
      if (c, rule) in ix.absolute {
        assert fs[ix.absolute[(c, rule)]] in fs;
      }
    }
  }

  /** The absolute finding the index holds for a key is the only one. */
  lemma AbsoluteAgrees(ix: Index, fs: seq<Finding>, cluster: string, rule: string)
    requires Indexes(ix, fs) && UniqueAbsolutes(fs)
    ensures (cluster, rule) in ix.absolute ==>
              var j := ix.absolute[(cluster, rule)];
              j < |fs| && Absolute(fs[j]) && fs[j].cluster == cluster && fs[j].rule == rule
    ensures forall a :: a in fs && Absolute(a) && a.cluster == cluster && a.rule == rule ==>
              (cluster, rule) in ix.absolute && fs[ix.absolute[(cluster, rule)]] == a
  {
    hide IndexesNorms;
    forall a | a in fs && Absolute(a) && a.cluster == cluster && a.rule == rule
      ensures (cluster, rule) in ix.absolute && fs[ix.absolute[(cluster, rule)]] == a
    {
      var i :| 0 <= i < |fs| && fs[i] == a;
    }
  }

  lemma CountingAgrees(ix: Index, members: map<string, seq<string>>, fs: seq<Finding>, cluster: string,
                       field: FieldRef, scope: string)
    requires Indexes(ix, fs) && UniqueAbsolutes(fs)
    ensures var j := Counting(ix, members, cluster, field, scope);
            && (j.Some? ==> j.value < |fs| && CountsIn(SetOf(fs), members, cluster, field, scope, fs[j.value]))
            && forall a :: CountsIn(SetOf(fs), members, cluster, field, scope, a) ==> j.Some? && fs[j.value] == a
  {
    hide SinglesIn, Singles, CountedBy, Indexes, UniqueAbsolutes;
    SinglesAgrees(ix, members, fs, CountedBy(field), field, scope);
    AbsoluteAgrees(ix, fs, cluster, CountedBy(field));
  }

  lemma StatedAgrees(ix: Index, members: map<string, seq<string>>, fs: seq<Finding>, i: nat)
    requires Indexes(ix, fs) && UniqueAbsolutes(fs) && i < |fs| && !Absolute(fs[i])
    ensures StatedBy(ix, members, fs, i).Some? <==> StatedIn(SetOf(fs), members, fs[i])
  {
    hide CountsIn, Counting, Indexes;
    CountingAgrees(ix, members, fs, fs[i].cluster, fs[i].norm.value.field, fs[i].norm.value.scope);
  }

  /** The norm finding the index holds for a key is the only one. */
  lemma NormAgrees(ix: Index, fs: seq<Finding>, key: (string, FieldRef))
    requires Indexes(ix, fs) && UniqueNorms(fs)
    ensures key in ix.norm ==> var j := ix.norm[key]; j < |fs| && !Absolute(fs[j]) && NormKey(fs[j]) == key
    ensures forall j :: 0 <= j < |fs| && !Absolute(fs[j]) && NormKey(fs[j]) == key ==>
              key in ix.norm && ix.norm[key] == j
  {
    hide IndexesAbsolute;
  }

  /** An index entry that points at a finding no less severe than f. */
  predicate Weighs(fs: seq<Finding>, f: Finding, j: Option<nat>) {
    j.Some? && j.value < |fs| && Rank(fs[j.value].severity) >= Rank(f.severity)
  }

  function NormAt(ix: Index, key: (string, FieldRef)): Option<nat> {
    if key in ix.norm then Some(ix.norm[key]) else None
  }

  lemma StaterIndexed(ix: Index, members: map<string, seq<string>>, fs: seq<Finding>, f: Finding, t: FieldRef,
                      g: Finding)
    requires Indexes(ix, fs) && UniqueAbsolutes(fs) && UniqueNorms(fs) && !Absolute(f)
    requires StatesFor(SetOf(fs), members, f, t, g) && Rank(g.severity) >= Rank(f.severity)
    ensures Weighs(fs, f, Counting(ix, members, f.cluster, t, f.norm.value.scope))
            || Weighs(fs, f, NormAt(ix, (f.cluster, t)))
  {
    hide CountsIn, Counting, Indexes, UniqueAbsolutes, UniqueNorms, Rank;
    if CountsIn(SetOf(fs), members, f.cluster, t, f.norm.value.scope, g) {
      CountingAgrees(ix, members, fs, f.cluster, t, f.norm.value.scope);
    } else {
      NormAgrees(ix, fs, (f.cluster, t));
      var j :| 0 <= j < |fs| && fs[j] == g;
    }
  }

  lemma CountingStates(ix: Index, members: map<string, seq<string>>, fs: seq<Finding>, f: Finding, t: FieldRef)
    requires Indexes(ix, fs) && UniqueAbsolutes(fs) && !Absolute(f)
    requires Weighs(fs, f, Counting(ix, members, f.cluster, t, f.norm.value.scope))
    ensures StatesAt(SetOf(fs), members, f, t)
  {
    hide CountsIn, Counting, Indexes, UniqueAbsolutes, Rank;
    CountingAgrees(ix, members, fs, f.cluster, t, f.norm.value.scope);
    assert StatesFor(SetOf(fs), members, f, t, fs[Counting(ix, members, f.cluster, t, f.norm.value.scope).value]);
  }

  lemma NormStates(ix: Index, members: map<string, seq<string>>, fs: seq<Finding>, f: Finding, t: FieldRef)
    requires Indexes(ix, fs) && UniqueNorms(fs) && !Absolute(f) && Weighs(fs, f, NormAt(ix, (f.cluster, t)))
    ensures StatesAt(SetOf(fs), members, f, t)
  {
    hide CountsIn, Indexes, UniqueNorms, Rank;
    NormAgrees(ix, fs, (f.cluster, t));
    assert StatesFor(SetOf(fs), members, f, t, fs[NormAt(ix, (f.cluster, t)).value]);
  }

  /** What one target decides. */
  lemma TargetAgrees(ix: Index, members: map<string, seq<string>>, fs: seq<Finding>, f: Finding, t: FieldRef)
    requires Indexes(ix, fs) && UniqueAbsolutes(fs) && UniqueNorms(fs) && !Absolute(f)
    ensures StatesAt(SetOf(fs), members, f, t) <==>
            Weighs(fs, f, Counting(ix, members, f.cluster, t, f.norm.value.scope))
            || Weighs(fs, f, NormAt(ix, (f.cluster, t)))
  {
    hide StatesFor, Weighs, Counting, NormAt, Indexes, UniqueAbsolutes, UniqueNorms, Rank;
    if Weighs(fs, f, Counting(ix, members, f.cluster, t, f.norm.value.scope)) {
      CountingStates(ix, members, fs, f, t);
    }
    if Weighs(fs, f, NormAt(ix, (f.cluster, t))) {
      NormStates(ix, members, fs, f, t);
    }
    if StatesAt(SetOf(fs), members, f, t) {
      var g :| StatesFor(SetOf(fs), members, f, t, g) && Rank(g.severity) >= Rank(f.severity);
      StaterIndexed(ix, members, fs, f, t, g);
    }
  }

  lemma NormIsOnly(ix: Index, fs: seq<Finding>, key: (string, FieldRef), j: nat)
    requires Indexes(ix, fs) && UniqueNorms(fs) && j < |fs|
    ensures !Absolute(fs[j]) && NormKey(fs[j]) == key <==> NormAt(ix, key) == Some(j)
  {
    hide Indexes, UniqueNorms;
    NormAgrees(ix, fs, key);
  }

  // ----- What pass 2 drops

  /** Where target k states nothing for f, only the later targets do. */
  lemma StatedLater(all: set<Finding>, members: map<string, seq<string>>, f: Finding, k: nat)
    requires !Absolute(f) && k < |RedundantWith(f.norm.value.field)|
    requires !StatesAt(all, members, f, RedundantWith(f.norm.value.field)[k])
    ensures StatedFrom(all, members, f, k) <==> StatedFrom(all, members, f, k + 1)
    ensures forall g :: !Absolute(g) ==>
              (DisplacesFrom(all, members, f, k, g) <==>
               Displaces(all, members, f, k, g) || DisplacesFrom(all, members, f, k + 1, g))
  {
    hide StatesAt, RedundantWith, Displaces;
  }

  /** Past the last target nothing is stated or displaced. */
  lemma NothingLater(all: set<Finding>, members: map<string, seq<string>>, f: Finding)
    requires !Absolute(f)
    ensures var n := |RedundantWith(f.norm.value.field)|;
            && !StatedFrom(all, members, f, n)
            && forall g :: !Absolute(g) ==> !DisplacesFrom(all, members, f, n, g)
  {
    hide StatesAt, RedundantWith;
  }

  /** Where target k states f's field, f is dropped and displaces nothing more. */
  lemma StatedHere(all: set<Finding>, members: map<string, seq<string>>, f: Finding, k: nat)
    requires !Absolute(f) && k < |RedundantWith(f.norm.value.field)|
    requires StatesAt(all, members, f, RedundantWith(f.norm.value.field)[k])
    ensures StatedFrom(all, members, f, k)
    ensures forall g :: !Absolute(g) ==> !DisplacesFrom(all, members, f, k, g)
  {
    hide StatesAt, RedundantWith;
  }

  /** The finding displaced at target k is the one the index holds, where nothing counts the field. */
  lemma DisplacedHere(ix: Index, members: map<string, seq<string>>, fs: seq<Finding>, f: Finding, k: nat, j: nat)
    requires Indexes(ix, fs) && Regular(fs) && !Absolute(f) && j < |fs| && !Absolute(fs[j])
    requires k < |RedundantWith(f.norm.value.field)|
    requires forall k' :: 0 <= k' <= k ==> !StatesAt(SetOf(fs), members, f, RedundantWith(f.norm.value.field)[k'])
    ensures var t := RedundantWith(f.norm.value.field)[k];
            Displaces(SetOf(fs), members, f, k, fs[j]) <==>
            NormAt(ix, (f.cluster, t)) == Some(j) && Counting(ix, members, f.cluster, t, f.norm.value.scope).None?
  {
    hide StatesAt, RedundantWith, Counting, CountsIn, Indexes, UniqueNorms, UniqueAbsolutes, AllowedSeverities;
    var t := RedundantWith(f.norm.value.field)[k];
    NormIsOnly(ix, fs, (f.cluster, t), j);
    CountingAgrees(ix, members, fs, f.cluster, t, f.norm.value.scope);
  }

  /** Finding j's flag after f's targets from k on were judged. */
  ghost predicate Judged(all: set<Finding>, members: map<string, seq<string>>, fs: seq<Finding>, i: nat, k: nat,
                         drop: seq<bool>, j: nat)
    requires i < |fs| && j < |fs| && |drop| == |fs| && !Absolute(fs[i])
  {
    || drop[j]
    || (j == i && StatedFrom(all, members, fs[i], k))
    || (!Absolute(fs[j]) && DisplacesFrom(all, members, fs[i], k, fs[j]))
  }

  lemma {:induction false} RestateMeans(ix: Index, members: map<string, seq<string>>, fs: seq<Finding>, i: nat, k: nat,
                                        drop: seq<bool>, j: nat)
    requires Indexes(ix, fs) && Regular(fs) && i < |fs| && !Absolute(fs[i]) && |drop| == |fs| && j < |fs|
    requires k <= |RedundantWith(fs[i].norm.value.field)|
    requires forall k' :: 0 <= k' < k ==>
               !StatesAt(SetOf(fs), members, fs[i], RedundantWith(fs[i].norm.value.field)[k'])
    ensures Restate(ix, members, fs, i, RedundantWith(fs[i].norm.value.field)[k..], drop)[j] <==>
            Judged(SetOf(fs), members, fs, i, k, drop, j)
    decreases |RedundantWith(fs[i].norm.value.field)| - k
  {
    hide StatesAt, RedundantWith, Counting, CountsIn, UniqueNorms, UniqueAbsolutes, AllowedSeverities, Displaces;
    var f, all := fs[i], SetOf(fs);
    var targets := RedundantWith(f.norm.value.field);
    if k < |targets| {
      var t := targets[k];
      assert targets[k..][0] == t && targets[k..][1..] == targets[k + 1..];
      TargetAgrees(ix, members, fs, f, t);
      CountingAgrees(ix, members, fs, f.cluster, t, f.norm.value.scope);
      if StatesAt(all, members, f, t) {
        StatedHere(all, members, f, k);
      } else {
        StatedLater(all, members, f, k);
        if !Absolute(fs[j]) { DisplacedHere(ix, members, fs, f, k, j); }
        var counted := Counting(ix, members, f.cluster, t, f.norm.value.scope);
        var normed := NormAt(ix, (f.cluster, t));
        var drop' := if normed.Some? && counted.None? then drop[normed.value := true] else drop;
        assert Restate(ix, members, fs, i, targets[k..], drop) == Restate(ix, members, fs, i, targets[k + 1..], drop');
        RestateMeans(ix, members, fs, i, k + 1, drop', j);
        assert Judged(all, members, fs, i, k, drop, j) <==> Judged(all, members, fs, i, k + 1, drop', j);
      }
    } else {
      NothingLater(all, members, f);
    }
  }

  lemma DisplacedHasNoTargets(members: map<string, seq<string>>, fs: seq<Finding>, f: Finding, g: Finding)
    requires AllowedSeverities(fs) && f in fs && g in fs && !Absolute(f) && !Absolute(g)
    requires DisplacesFrom(SetOf(fs), members, f, 0, g)
    ensures RedundantWith(g.norm.value.field) == []
  {
    hide RedundantWith, CountsIn;
    var k: nat :| Displaces(SetOf(fs), members, f, k, g);
    var t := RedundantWith(f.norm.value.field)[k];
    assert StatesFor(SetOf(fs), members, f, t, g);
    SevereRestatesLeaves(f.norm.value.field, t);
  }

  /** Finding j's flag after pass 2 looked at the first k findings. */
  ghost predicate DroppedSoFar(all: set<Finding>, members: map<string, seq<string>>, fs: seq<Finding>, k: nat, j: nat)
    requires k <= |fs| && j < |fs|
  {
    && !Absolute(fs[j])
    && (|| StatedIn(all, members, fs[j])
        || (j < k && StatedFrom(all, members, fs[j], 0))
        || exists i :: 0 <= i < k && Displacer(all, members, fs[i], fs[j]))
  }

  lemma DroppedOneMore(all: set<Finding>, members: map<string, seq<string>>, fs: seq<Finding>, i: nat, j: nat)
    requires i < |fs| && j < |fs|
    ensures DroppedSoFar(all, members, fs, i + 1, j) <==>
            || DroppedSoFar(all, members, fs, i, j)
            || (!Absolute(fs[j]) && j == i && StatedFrom(all, members, fs[j], 0))
            || (!Absolute(fs[j]) && Displacer(all, members, fs[i], fs[j]))
  {
    hide StatedIn, StatedFrom, Displacer;
  }

  /** A finding pass 2 finds already dropped judges nothing and displaces nothing. */
  lemma DroppedIsSpent(members: map<string, seq<string>>, fs: seq<Finding>, i: nat, j: nat)
    requires AllowedSeverities(fs) && i < |fs| && j < |fs| && !Absolute(fs[j])
    requires DroppedSoFar(SetOf(fs), members, fs, i, i)
    ensures !Displacer(SetOf(fs), members, fs[i], fs[j])
    ensures StatedIn(SetOf(fs), members, fs[i]) || !StatedFrom(SetOf(fs), members, fs[i], 0)
  {
    hide StatedIn, StatesAt, RedundantWith;
    if !StatedIn(SetOf(fs), members, fs[i]) {
      var i0 :| 0 <= i0 < i && Displacer(SetOf(fs), members, fs[i0], fs[i]);
      DisplacedHasNoTargets(members, fs, fs[i0], fs[i]);
    }
  }

  lemma {:induction false} RestatedMeans(ix: Index, members: map<string, seq<string>>, fs: seq<Finding>, k: nat, j: nat)
    requires Indexes(ix, fs) && Regular(fs) && k <= |fs| && j < |fs|
    ensures Restated(ix, members, fs, k)[j] <==> DroppedSoFar(SetOf(fs), members, fs, k, j)
  {
    hide RedundantWith, Restate, StatedBy, StatedIn, StatedFrom, DisplacesFrom, Indexes, UniqueNorms, UniqueAbsolutes,
         AllowedSeverities, Displacer;
    var all := SetOf(fs);
    if k == 0 {
      if Absolute(fs[j]) {
        AbsoluteNotStated(ix, members, fs, j);
      } else {
        StatedAgrees(ix, members, fs, j);
      }
    } else {
      var i := k - 1;
      RestatedMeans(ix, members, fs, i, j);
      DroppedOneMore(all, members, fs, i, j);
      if Absolute(fs[i]) {
        AbsoluteDisplacesNone(all, members, fs[i]);
      } else {
        RestatedMeans(ix, members, fs, i, i);
        var drop := Restated(ix, members, fs, i);
        if drop[i] {
          if !Absolute(fs[j]) { DroppedIsSpent(members, fs, i, j); }
        } else {
          RestateMeans(ix, members, fs, i, 0, drop, j);
          assert RedundantWith(fs[i].norm.value.field)[0..] == RedundantWith(fs[i].norm.value.field);
          if !Absolute(fs[j]) { DisplacerIs(all, members, fs, i, j); }
        }
      }
    }
  }

  lemma AbsoluteNotStated(ix: Index, members: map<string, seq<string>>, fs: seq<Finding>, j: nat)
    requires Indexes(ix, fs) && j < |fs| && Absolute(fs[j])
    ensures StatedBy(ix, members, fs, j).None?
  {
  }

  lemma AbsoluteDisplacesNone(all: set<Finding>, members: map<string, seq<string>>, f: Finding)
    requires Absolute(f)
    ensures forall g :: !Absolute(g) ==> !Displacer(all, members, f, g)
  {
  }

  lemma DisplacerIs(all: set<Finding>, members: map<string, seq<string>>, fs: seq<Finding>, i: nat, j: nat)
    requires all == SetOf(fs) && i < |fs| && j < |fs| && !Absolute(fs[i]) && !Absolute(fs[j])
    requires !StatedIn(all, members, fs[i])
    ensures Displacer(all, members, fs[i], fs[j]) <==> DisplacesFrom(all, members, fs[i], 0, fs[j])
  {
    hide StatedIn, DisplacesFrom;
  }

  /** Which findings are dropped is a matter of what is found, not of its order. */
  lemma DropsTheRedundant(ix: Index, members: map<string, seq<string>>, fs: seq<Finding>, j: nat)
    requires Indexes(ix, fs) && Regular(fs) && j < |fs|
    ensures Restated(ix, members, fs, |fs|)[j] <==> Redundant(SetOf(fs), members, fs[j])
  {
    hide Restated, StatedIn, StatedFrom, Displacer, Indexes, Regular;
    RestatedMeans(ix, members, fs, |fs|, j);
    if !Absolute(fs[j]) {
      if g :| Displacer(SetOf(fs), members, g, fs[j]) {
        DisplacerListed(members, fs, g, fs[j]);
      }
    }
  }

  lemma DisplacerListed(members: map<string, seq<string>>, fs: seq<Finding>, g: Finding, f: Finding)
    requires !Absolute(f) && Displacer(SetOf(fs), members, g, f)
    ensures exists i :: 0 <= i < |fs| && Displacer(SetOf(fs), members, fs[i], f)
  {
    hide StatedIn, DisplacesFrom;
    var i :| 0 <= i < |fs| && fs[i] == g;
  }

  /** A finding is dropped from one order of the findings exactly when it is from any other. */
  lemma OrderIrrelevant(ix: Index, ix': Index, members: map<string, seq<string>>, fs: seq<Finding>, gs: seq<Finding>,
                        i: nat, j: nat)
    requires Indexes(ix, fs) && Indexes(ix', gs) && Regular(fs) && Regular(gs)
    requires forall f :: f in fs <==> f in gs
    requires i < |fs| && j < |gs| && fs[i] == gs[j]
    ensures Restated(ix, members, fs, |fs|)[i] <==> Restated(ix', members, gs, |gs|)[j]
  {
    hide Restated, Redundant, Indexes, Regular;
    DropsTheRedundant(ix, members, fs, i);
    DropsTheRedundant(ix', members, gs, j);
    assert SetOf(fs) == SetOf(gs);
  }
}
