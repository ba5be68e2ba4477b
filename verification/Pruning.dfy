/** dropRedundant of internal/report/findings.go: two passes over the findings that drop a norm
    finding whose fact another finding on the same cluster states, and what survives them. */
module Pruning {
  import opened FieldTable
  import opened Findings
  import opened Wrappers

  // ----- The index of the original list

  /** First absolute finding per cluster and rule, the clusters each rule fired on, last norm finding
      per cluster and field, and every field off the norm per cluster and scope. */
  datatype Index = Index(absolute: map<(string, string), nat>, firedOn: map<string, seq<string>>,
                         norm: map<(string, FieldRef), nat>, normIn: set<(string, FieldRef, string)>)

  predicate Absolute(f: Finding) {
    f.norm.None?
  }

  function NormKey(f: Finding): (string, FieldRef)
    requires !Absolute(f)
  {
    (f.cluster, f.norm.value.field)
  }

  function ScopedKey(f: Finding): (string, FieldRef, string)
    requires !Absolute(f)
  {
    (f.cluster, f.norm.value.field, f.norm.value.scope)
  }

  ghost predicate IndexesAbsolute(ix: Index, fs: seq<Finding>) {
    && (forall k :: k in ix.absolute ==>
          && ix.absolute[k] < |fs| && Absolute(fs[ix.absolute[k]])
          && (fs[ix.absolute[k]].cluster, fs[ix.absolute[k]].rule) == k)
    && (forall i :: 0 <= i < |fs| && Absolute(fs[i]) ==>
          (fs[i].cluster, fs[i].rule) in ix.absolute && ix.absolute[(fs[i].cluster, fs[i].rule)] <= i)
    && (forall c, r :: (c, r) in ix.absolute <==> r in ix.firedOn && c in ix.firedOn[r])
  }

  ghost predicate IndexesNorms(ix: Index, fs: seq<Finding>) {
    && (forall k :: k in ix.norm ==>
          ix.norm[k] < |fs| && !Absolute(fs[ix.norm[k]]) && NormKey(fs[ix.norm[k]]) == k)
    && (forall i :: 0 <= i < |fs| && !Absolute(fs[i]) ==> NormKey(fs[i]) in ix.norm && i <= ix.norm[NormKey(fs[i])])
    && (forall k :: k in ix.normIn <==> exists i :: 0 <= i < |fs| && !Absolute(fs[i]) && ScopedKey(fs[i]) == k)
  }

  ghost predicate Indexes(ix: Index, fs: seq<Finding>) {
    IndexesAbsolute(ix, fs) && IndexesNorms(ix, fs)
  }

  /** Enters an absolute finding: the first of its cluster and rule wins. */
  method EnterAbsolute(ix: Index, f: Finding, i: nat, ghost fs: seq<Finding>) returns (ix': Index)
    requires Absolute(f) && i == |fs| && Indexes(ix, fs)
    ensures Indexes(ix', fs + [f])
  {
    hide IndexesNorms;
    var key := (f.cluster, f.rule);
    ix' := ix;
    if key !in ix.absolute {
      var fired := if f.rule in ix.firedOn then ix.firedOn[f.rule] else [];
      ix' := ix.(absolute := ix.absolute[key := i], firedOn := ix.firedOn[f.rule := fired + [f.cluster]]);
    }
    NormsSame(ix, ix', fs, f);
  }

  lemma NormsSame(ix: Index, ix': Index, fs: seq<Finding>, f: Finding)
    requires Absolute(f) && IndexesNorms(ix, fs) && ix'.norm == ix.norm && ix'.normIn == ix.normIn
    ensures IndexesNorms(ix', fs + [f])
  {
    var all := fs + [f];
    forall k ensures k in ix'.normIn <==> exists i :: 0 <= i < |all| && !Absolute(all[i]) && ScopedKey(all[i]) == k {
      if k in ix.normIn {
        var i :| 0 <= i < |fs| && !Absolute(fs[i]) && ScopedKey(fs[i]) == k;
        assert all[i] == fs[i];
      }
    }
  }

  /** Enters a norm finding: the last of its cluster and field wins. */
  method EnterNorm(ix: Index, f: Finding, i: nat, ghost fs: seq<Finding>) returns (ix': Index)
    requires !Absolute(f) && i == |fs| && Indexes(ix, fs)
    ensures Indexes(ix', fs + [f])
  {
    ix' := ix.(norm := ix.norm[NormKey(f) := i], normIn := ix.normIn + {ScopedKey(f)});
    ghost var all := fs + [f];
    assert all[i] == f && forall j :: 0 <= j < i ==> all[j] == fs[j];
    forall k ensures k in ix'.normIn <==> exists j :: 0 <= j < |all| && !Absolute(all[j]) && ScopedKey(all[j]) == k {
      if k in ix.normIn {
        var j :| 0 <= j < |fs| && !Absolute(fs[j]) && ScopedKey(fs[j]) == k;
        assert all[j] == fs[j];
      }
    }
  }

  method BuildIndex(findings: seq<Finding>) returns (ix: Index)
    ensures Indexes(ix, findings)
  {
    ix := Index(map[], map[], map[], {});
    for i := 0 to |findings|
      invariant Indexes(ix, findings[..i])
    {
      assert findings[..i + 1] == findings[..i] + [findings[i]];
      if Absolute(findings[i]) {
        ix := EnterAbsolute(ix, findings[i], i, findings[..i]);
      } else {
        ix := EnterNorm(ix, findings[i], i, findings[..i]);
      }
    }
    assert findings[..|findings|] == findings;
  }

  // ----- The judgments both passes make

  /** Within the scope, the rule fired on no cluster that holds the norm. */
  predicate Singles(ix: Index, members: map<string, seq<string>>, rule: string, field: FieldRef, scope: string) {
    && scope in members
    && (rule in ix.firedOn ==>
          forall c :: c in ix.firedOn[rule] && c in members[scope] ==> (c, field, scope) in ix.normIn)
  }

  /** The absolute finding that counts the field on the cluster and singles it out. */
  function Counting(ix: Index, members: map<string, seq<string>>, cluster: string, field: FieldRef, scope: string)
    : Option<nat>
  {
    var rule := CountedBy(field);
    if rule == "" || (cluster, rule) !in ix.absolute || !Singles(ix, members, rule, field, scope) then None
    else Some(ix.absolute[(cluster, rule)])
  }

  /** The absolute finding that counts norm finding i's own field at no lower severity. */
  function StatedBy(ix: Index, members: map<string, seq<string>>, fs: seq<Finding>, i: nat): Option<nat>
    requires Indexes(ix, fs) && i < |fs|
  {
    if Absolute(fs[i]) then None
    else
      var f := fs[i];
      match Counting(ix, members, f.cluster, f.norm.value.field, f.norm.value.scope)
      case None => None
      case Some(j) => if Rank(fs[j].severity) < Rank(f.severity) then None else Some(j)
  }

  // ----- Pass 1: drop what an absolute finding counts

  /** The norm finding j carries after pass 1 looked at the first k findings. */
  ghost function NormAfter(ix: Index, members: map<string, seq<string>>, fs: seq<Finding>, j: nat, k: nat): Option<Norm>
    requires Indexes(ix, fs) && j < |fs| && k <= |fs|
  {
    if k == 0 then fs[j].norm
    else
      var before := NormAfter(ix, members, fs, j, k - 1);
      if before.None? && StatedBy(ix, members, fs, k - 1) == Some(j) then fs[k - 1].norm else before
  }

  /** The findings once pass 1 looked at the first k of them. */
  ghost function Adopted(ix: Index, members: map<string, seq<string>>, fs: seq<Finding>, k: nat): (r: seq<Finding>)
    requires Indexes(ix, fs) && k <= |fs|
    ensures |r| == |fs|
  {
    seq(|fs|, j requires 0 <= j < |fs| => fs[j].(norm := NormAfter(ix, members, fs, j, k)))
  }

  lemma AdoptNone(ix: Index, members: map<string, seq<string>>, fs: seq<Finding>)
    requires Indexes(ix, fs)
    ensures Adopted(ix, members, fs, 0) == fs
  {
    hide Indexes;
  }

  lemma AdoptOne(ix: Index, members: map<string, seq<string>>, fs: seq<Finding>, i: nat)
    requires Indexes(ix, fs) && i < |fs|
    ensures var was := Adopted(ix, members, fs, i);
            Adopted(ix, members, fs, i + 1) ==
              match StatedBy(ix, members, fs, i)
              case None => was
              case Some(j) => if j < |fs| && was[j].norm.None? then was[j := was[j].(norm := fs[i].norm)] else was
  {
    hide StatedBy, Indexes;
  }

  lemma StatedInRange(ix: Index, members: map<string, seq<string>>, fs: seq<Finding>, i: nat)
    requires Indexes(ix, fs) && i < |fs|
    ensures StatedBy(ix, members, fs, i).Some? ==> StatedBy(ix, members, fs, i).value < |fs|
  {
  }

  /** Drops every norm finding that an absolute one counts, which adopts the norm if it has none. */
  method DropCounted(findings: array<Finding>, ix: Index, members: map<string, seq<string>>, drop: array<bool>,
                     fs: seq<Finding>)
    requires fs == findings[..] && Indexes(ix, fs) && drop.Length == findings.Length
    requires forall i :: 0 <= i < drop.Length ==> !drop[i]
    modifies findings, drop
    ensures findings[..] == Adopted(ix, members, fs, |fs|)
    ensures forall i :: 0 <= i < drop.Length ==> (drop[i] <==> StatedBy(ix, members, fs, i).Some?)
  {
    hide Adopted, StatedBy, Indexes;
    AdoptNone(ix, members, fs);
    for i := 0 to findings.Length
      invariant findings[..] == Adopted(ix, members, fs, i)
      invariant forall k :: 0 <= k < drop.Length ==> (drop[k] <==> k < i && StatedBy(ix, members, fs, k).Some?)
    {
      AdoptOne(ix, members, fs, i);
      StatedInRange(ix, members, fs, i);
      var stated := StatedBy(ix, members, fs, i);
      if stated.Some? {
        var j := stated.value;
        drop[i] := true;
        if findings[j].norm.None? {
          findings[j] := findings[j].(norm := fs[i].norm);
        }
      }
      assert findings[..] == Adopted(ix, members, fs, i + 1);
    }
  }

  // ----- Pass 2: drop what another field's finding states

  /** The drop flags after finding i's remaining targets were judged. */
  function Restate(ix: Index, members: map<string, seq<string>>, fs: seq<Finding>, i: nat, targets: seq<FieldRef>,
                   drop: seq<bool>): (r: seq<bool>)
    requires Indexes(ix, fs) && i < |fs| && !Absolute(fs[i]) && |drop| == |fs|
    ensures |r| == |fs|
  {
    if targets == [] then drop
    else
      var f := fs[i];
      var counted := Counting(ix, members, f.cluster, targets[0], f.norm.value.scope);
      if counted.Some? && Rank(fs[counted.value].severity) >= Rank(f.severity) then drop[i := true]
      else if (f.cluster, targets[0]) !in ix.norm then Restate(ix, members, fs, i, targets[1..], drop)
      else
        var j := ix.norm[(f.cluster, targets[0])];
        if Rank(fs[j].severity) >= Rank(f.severity) then drop[i := true]
        else Restate(ix, members, fs, i, targets[1..], if counted.None? then drop[j := true] else drop)
  }

  /** The drop flags after pass 2 looked at the first k findings. */
  ghost function Restated(ix: Index, members: map<string, seq<string>>, fs: seq<Finding>, k: nat): (r: seq<bool>)
    requires Indexes(ix, fs) && k <= |fs|
    ensures |r| == |fs|
  {
    if k == 0 then seq(|fs|, i requires 0 <= i < |fs| => StatedBy(ix, members, fs, i).Some?)
    else
      var drop := Restated(ix, members, fs, k - 1);
      var i := k - 1;
      if Absolute(fs[i]) || drop[i] then drop
      else Restate(ix, members, fs, i, RedundantWith(fs[i].norm.value.field), drop)
  }

  /** Judges the targets of norm finding i, stopping once i is dropped. */
  method JudgeTargets(ix: Index, members: map<string, seq<string>>, fs: seq<Finding>, i: nat, drop: array<bool>)
    requires Indexes(ix, fs) && i < |fs| && !Absolute(fs[i]) && drop.Length == |fs|
    modifies drop
    ensures drop[..] == Restate(ix, members, fs, i, RedundantWith(fs[i].norm.value.field), old(drop[..]))
  {
    var f := fs[i];
    var targets := RedundantWith(f.norm.value.field);
    ghost var all := Restate(ix, members, fs, i, targets, drop[..]);
    for t := 0 to |targets|
      invariant Restate(ix, members, fs, i, targets[t..], drop[..]) == all
    {
      ghost var before := drop[..];
      assert targets[t..][0] == targets[t] && targets[t..][1..] == targets[t + 1..];
      var counted := Counting(ix, members, f.cluster, targets[t], f.norm.value.scope);
      if counted.Some? && Rank(fs[counted.value].severity) >= Rank(f.severity) {
        drop[i] := true;
        assert drop[..] == before[i := true];
        return;
      }
      if (f.cluster, targets[t]) !in ix.norm {
        continue;
      }
      var j := ix.norm[(f.cluster, targets[t])];
      if Rank(fs[j].severity) >= Rank(f.severity) {
        drop[i] := true;
        assert drop[..] == before[i := true];
        return;
      }
      if counted.None? {
        drop[j] := true;
        assert drop[..] == before[j := true];
      }
    }
    assert targets[|targets|..] == [];
  }

  /** Drops every norm finding that restates a field another finding states, or is restated by a graver one. */
  method DropRestated(ix: Index, members: map<string, seq<string>>, fs: seq<Finding>, drop: array<bool>)
    requires Indexes(ix, fs) && drop.Length == |fs| && drop[..] == Restated(ix, members, fs, 0)
    modifies drop
    ensures drop[..] == Restated(ix, members, fs, |fs|)
  {
    hide Restate, RedundantWith, StatedBy;
    for i := 0 to |fs|
      invariant drop[..] == Restated(ix, members, fs, i)
    {
      if Absolute(fs[i]) || drop[i] {
        continue;
      }
      JudgeTargets(ix, members, fs, i, drop);
    }
  }

  // ----- The whole pass

  /** The elements whose flag is not set, in order. */
  ghost function Unflagged<T>(s: seq<T>, drop: seq<bool>): (r: seq<T>)
    requires |drop| == |s|
    ensures |r| <= |s|
  {
    if s == [] then []
    else
      var k := |s| - 1;
      Unflagged(s[..k], drop[..k]) + if drop[k] then [] else [s[k]]
  }

  /** Moves the elements kept to the front. */
  method Compact(findings: array<Finding>, drop: array<bool>) returns (kept: nat)
    requires drop.Length == findings.Length
    modifies findings
    ensures kept <= findings.Length
    ensures findings[..kept] == Unflagged(old(findings[..]), drop[..])
  {
    ghost var was, flags := findings[..], drop[..];
    kept := 0;
    for i := 0 to findings.Length
      invariant kept <= i && findings[..kept] == Unflagged(was[..i], flags[..i])
      invariant findings[i..] == was[i..]
    {
      assert findings[i] == findings[i..][0] == was[i];
      assert was[..i + 1][..i] == was[..i] && flags[..i + 1][..i] == flags[..i];
      ghost var front := findings[..kept];
      if !drop[i] {
        findings[kept] := findings[i];
        kept := kept + 1;
        assert findings[..kept] == front + [was[i]];
      }
      assert findings[i + 1..] == was[i..][1..];
    }
    assert was[..|was|] == was && flags[..|flags|] == flags;
  }

  /** What is left of the findings: absolute ones with the norms they adopted, and the norm findings
      neither pass dropped. */
  ghost function Pruned(ix: Index, members: map<string, seq<string>>, fs: seq<Finding>): seq<Finding>
    requires Indexes(ix, fs)
  {
    Unflagged(Adopted(ix, members, fs, |fs|), Restated(ix, members, fs, |fs|))
  }

  /** Drops redundant norm findings in place; the first kept elements are what is left. */
  method DropRedundant(findings: array<Finding>, members: map<string, seq<string>>)
    returns (kept: nat, ghost ix: Index)
    modifies findings
    ensures Indexes(ix, old(findings[..])) && kept <= findings.Length
    ensures findings[..kept] == Pruned(ix, members, old(findings[..]))
  {
    var fs := findings[..];
    var index := BuildIndex(fs);
    ix := index;
    var drop := new bool[findings.Length](i => false);
    DropCounted(findings, index, members, drop, fs);
    assert drop[..] == Restated(index, members, fs, 0);
    DropRestated(index, members, fs, drop);
    kept := Compact(findings, drop);
  }
}
