/** What the cost ledger of internal/report/score_attribution.go promises: nothing is lost, and
    a finding or mark more never makes a fleet cheaper. */
module LedgerFacts {
  import opened FieldTable
  import opened Findings
  import opened ScoreLedger
  import opened SetFacts

  // ----- Nothing is lost

  ghost function KeyIn(key: Entry -> string, ks: seq<string>): Entry -> bool {
    (e: Entry) => key(e) in ks
  }

  /** The sum of the map over the keys listed. */
  ghost function SumOver(m: map<string, real>, ks: seq<string>): real
    requires forall k :: k in ks ==> k in m
  {
    if ks == [] then 0.0 else SumOver(m, ks[..|ks| - 1]) + m[ks[|ks| - 1]]
  }

  /** Costs selected by either of two conditions that exclude each other. */
  lemma {:induction false} CostEither(es: seq<Entry>, p: Entry -> bool, q: Entry -> bool, r: Entry -> bool)
    requires forall e :: e in es ==> !(p(e) && q(e)) && (r(e) <==> p(e) || q(e))
    ensures CostOf(es, r) == CostOf(es, p) + CostOf(es, q)
  {
    if es != [] {
      assert es[|es| - 1] in es && forall e :: e in es[..|es| - 1] ==> e in es;
      CostEither(es[..|es| - 1], p, q, r);
    }
  }

  lemma {:induction false} SumOverIsCost(m: map<string, real>, entries: seq<Entry>, key: Entry -> string,
                                         ks: seq<string>)
    requires Sums(m, entries, key) && NoDuplicates(ks) && forall k :: k in ks ==> k in m
    ensures SumOver(m, ks) == CostOf(entries, KeyIn(key, ks))
  {
    hide CostOf;
    if ks == [] {
      CostNone(entries, KeyIn(key, ks));
    } else {
      var rest, k := ks[..|ks| - 1], ks[|ks| - 1];
      assert ks == rest + [k] && k !in rest;
      SumOverIsCost(m, entries, key, rest);
      CostEither(entries, KeyIn(key, rest), Under(key, k), KeyIn(key, ks));
    }
  }

  /** The sums by key and the costs without a key are together the whole cost, in whatever order the
      keys are listed. */
  lemma KeysAndRest(m: map<string, real>, entries: seq<Entry>, key: Entry -> string, ks: seq<string>)
    requires Sums(m, entries, key) && NoDuplicates(ks) && forall k :: k in ks <==> k in m
    ensures SumOver(m, ks) + CostOf(entries, Under(key, "")) == CostOf(entries, Everything())
  {
    hide CostOf;
    SumOverIsCost(m, entries, key, ks);
    forall e | e in entries
      ensures KeyIn(key, ks)(e) <==> key(e) != ""
    {
      assert HasKey(entries, key, key(e));
    }
    CostEither(entries, KeyIn(key, ks), Under(key, ""), Everything());
  }

  /** A finished ledger: what its clusters and its rules pay, with what is tied to none, is its total. */
  lemma LedgerConserves(terms: seq<Term>, entries: seq<Entry>, total: real, byCluster: map<string, real>,
                        byRule: map<string, real>, clusters: seq<string>, rules: seq<string>)
    requires Balanced(terms, entries) && total == TermCosts(terms)
    requires Sums(byCluster, entries, ClusterOf) && Sums(byRule, entries, RuleOf)
    requires NoDuplicates(clusters) && forall k :: k in clusters <==> k in byCluster
    requires NoDuplicates(rules) && forall k :: k in rules <==> k in byRule
    ensures CostOf(entries, Everything()) == total
    ensures SumOver(byCluster, clusters) + CostOf(entries, Under(ClusterOf, "")) == total
    ensures SumOver(byRule, rules) + CostOf(entries, Under(RuleOf, "")) == total
  {
    hide CostOf, Sums, SumOver;
    KeysAndRest(byCluster, entries, ClusterOf, clusters);
    KeysAndRest(byRule, entries, RuleOf, rules);
  }

  // ----- More findings never cost less

  /** gs counts and charges at least what fs does. */
  ghost predicate NoFewer(fs: seq<Finding>, gs: seq<Finding>) {
    && (forall s :: CountOf(fs, s) <= CountOf(gs, s))
    && (forall c, s :: Charged(c, s, fs) <= Charged(c, s, gs))
  }

  lemma {:induction false} CountConcat(a: seq<Finding>, b: seq<Finding>, s: Severity, c: string)
    ensures CountOf(a + b, s) == CountOf(a, s) + CountOf(b, s)
    ensures Charged(c, s, a + b) == Charged(c, s, a) + Charged(c, s, b)
  {
    if b == [] {
      assert a + b == a;
    } else {
      CountConcat(a, b[..|b| - 1], s, c);
      assert (a + b)[..|a + b| - 1] == a + b[..|b| - 1];
    }
  }

  lemma InsertedAt(fs: seq<Finding>, i: nat, f: Finding, c: string, s: Severity)
    requires i <= |fs|
    ensures CountOf(fs, s) <= CountOf(fs[..i] + [f] + fs[i..], s)
    ensures Charged(c, s, fs) <= Charged(c, s, fs[..i] + [f] + fs[i..])
  {
    hide CountOf, Charged;
    assert fs == fs[..i] + fs[i..];
    CountConcat(fs[..i], fs[i..], s, c);
    CountConcat(fs[..i] + [f], fs[i..], s, c);
    CountConcat(fs[..i], [f], s, c);
  }

  /** One more finding, anywhere in the list. */
  lemma InsertedNoFewer(fs: seq<Finding>, i: nat, f: Finding)
    requires i <= |fs|
    ensures NoFewer(fs, fs[..i] + [f] + fs[i..])
  {
    hide CountOf, Charged;
    var gs := fs[..i] + [f] + fs[i..];
    forall s ensures CountOf(fs, s) <= CountOf(gs, s) {
      InsertedAt(fs, i, f, "", s);
    }
    forall c, s ensures Charged(c, s, fs) <= Charged(c, s, gs) {
      InsertedAt(fs, i, f, c, s);
    }
  }

  lemma {:induction false} MarksConcat(a: seq<Mark>, b: seq<Mark>, c: string, s: Severity)
    ensures MarksOn(c, s, a + b) == MarksOn(c, s, a) + MarksOn(c, s, b)
  {
    if b == [] {
      assert a + b == a;
    } else {
      MarksConcat(a, b[..|b| - 1], c, s);
      assert (a + b)[..|a + b| - 1] == a + b[..|b| - 1];
    }
  }

  lemma MarkedOnce(f: Finding, k: nat, mark: Mark, c: string, s: Severity)
    requires k <= |f.marks|
    ensures var g := f.(marks := f.marks[..k] + [mark] + f.marks[k..]);
            CountOf([f], s) == CountOf([g], s) && Charged(c, s, [f]) <= Charged(c, s, [g])
  {
    var more := f.marks[..k] + [mark] + f.marks[k..];
    var g := f.(marks := more);
    assert f.marks == f.marks[..k] + f.marks[k..];
    MarksConcat(f.marks[..k], f.marks[k..], c, s);
    MarksConcat(f.marks[..k] + [mark], f.marks[k..], c, s);
    MarksConcat(f.marks[..k], [mark], c, s);
    assert MarksOn(c, s, f.marks) <= MarksOn(c, s, more);
    assert [f][..0] == [] == [g][..0];
  }

  /** The findings with one more mark. */
  function WithMark(fs: seq<Finding>, i: nat, k: nat, mark: Mark): seq<Finding>
    requires i < |fs| && k <= |fs[i].marks|
  {
    fs[i := fs[i].(marks := fs[i].marks[..k] + [mark] + fs[i].marks[k..])]
  }

  lemma MarkedAt(fs: seq<Finding>, i: nat, k: nat, mark: Mark, c: string, s: Severity)
    requires i < |fs| && k <= |fs[i].marks|
    ensures CountOf(fs, s) <= CountOf(WithMark(fs, i, k, mark), s)
    ensures Charged(c, s, fs) <= Charged(c, s, WithMark(fs, i, k, mark))
  {
    hide CountOf, Charged;
    var gs := WithMark(fs, i, k, mark);
    assert fs == fs[..i] + [fs[i]] + fs[i + 1..] && gs == fs[..i] + [gs[i]] + fs[i + 1..];
    MarkedOnce(fs[i], k, mark, c, s);
    CountConcat(fs[..i] + [fs[i]], fs[i + 1..], s, c);
    CountConcat(fs[..i], [fs[i]], s, c);
    CountConcat(fs[..i] + [gs[i]], fs[i + 1..], s, c);
    CountConcat(fs[..i], [gs[i]], s, c);
  }

  /** One more mark, anywhere on a finding. */
  lemma MarkedNoFewer(fs: seq<Finding>, i: nat, k: nat, mark: Mark)
    requires i < |fs| && k <= |fs[i].marks|
    ensures NoFewer(fs, WithMark(fs, i, k, mark))
  {
    hide CountOf, Charged;
    var gs := WithMark(fs, i, k, mark);
    forall s ensures CountOf(fs, s) <= CountOf(gs, s) {
      MarkedAt(fs, i, k, mark, "", s);
    }
    forall c, s ensures Charged(c, s, fs) <= Charged(c, s, gs) {
      MarkedAt(fs, i, k, mark, c, s);
    }
  }

  /** How bad a status is, in shares of a degraded cluster. */
  function Weight(s: Status): nat {
    if s == CriticalCluster then 2 else if s == DegradedCluster || s == StrainedCluster then 1 else 0
  }

  ghost function TotalWeight(hs: seq<Health>): nat {
    if hs == [] then 0 else TotalWeight(hs[..|hs| - 1]) + Weight(hs[|hs| - 1].status)
  }

  lemma {:induction false} WeightCounts(hs: seq<Health>)
    ensures TotalWeight(hs) == 2 * CountStatus(hs, true) + CountStatus(hs, false)
  {
    if hs != [] { WeightCounts(hs[..|hs| - 1]); }
  }

  lemma SharesOfWeight(c: nat, d: nat, w: nat, n: real, share: real)
    requires w == 2 * c + d && n > 0.0 && share == DEGRADED_FLEET / n
    ensures Times(c, CRITICAL_FLEET / n) + Times(d, DEGRADED_FLEET / n) == Times(w, share)
  {
    assert CRITICAL_FLEET / n == 2.0 * share;
    assert w as real == 2.0 * c as real + d as real;
  }

  lemma TimesMono(a: nat, b: nat, x: real)
    requires a <= b && x >= 0.0
    ensures Times(a, x) <= Times(b, x)
  {
    assert (b - a) as real * x >= 0.0;
  }

  /** The two health terms cost the weight of the clusters. */
  lemma StatusCostIsWeight(hs: seq<Health>)
    ensures StatusCost(hs) == Times(TotalWeight(hs), Share(hs, false))
  {
    WeightCounts(hs);
    if hs == [] {
      NoTimes(Share(hs, false));
    } else {
      SharesOfWeight(CountStatus(hs, true), CountStatus(hs, false), TotalWeight(hs), |hs| as real, Share(hs, false));
    }
  }

  /** The same clusters, observed alike, none with a better status. */
  ghost predicate NoBetter(hs: seq<Health>, hs': seq<Health>) {
    |hs| == |hs'| && forall i :: 0 <= i < |hs| ==>
      hs[i].observed == hs'[i].observed && Weight(hs[i].status) <= Weight(hs'[i].status)
  }

  lemma {:induction false} NoBetterWeighs(hs: seq<Health>, hs': seq<Health>)
    requires NoBetter(hs, hs')
    ensures TotalWeight(hs) <= TotalWeight(hs')
    ensures WorstFraction(hs) == WorstFraction(hs') && VersionsOf(hs) == VersionsOf(hs')
  {
    if hs != [] { NoBetterWeighs(hs[..|hs| - 1], hs'[..|hs'| - 1]); }
  }

  lemma ChargeMono(a: nat, b: nat, per: real, limit: real)
    requires a <= b && per > 0.0 && limit > 0.0
    ensures Charge(Times(a, per), limit) <= Charge(Times(b, per), limit)
  {
    hide Times;
    TimesMono(a, b, per);
  }

  /** A fleet with more findings or marks, its health made anew, never costs less. */
  lemma MoreNeverCostsLess(clusters: seq<string>, observed: string -> Observed, fs: seq<Finding>, gs: seq<Finding>,
                           skew: seq<string> -> Severity)
    requires NoFewer(fs, gs)
    ensures FleetCost(fs, HealthsOf(clusters, observed, fs), skew) <=
            FleetCost(gs, HealthsOf(clusters, observed, gs), skew)
  {
    var hs, hs' := HealthsOf(clusters, observed, fs), HealthsOf(clusters, observed, gs);
    assert NoBetter(hs, hs') by {
      hide Charged;
    }
    hide NoFewer, HealthsOf, Times, Share, StatusCost, WorstFraction, VersionsOf, TotalWeight, NoBetter, Charge;
    NoBetterWeighs(hs, hs');
    StatusCostIsWeight(hs);
    StatusCostIsWeight(hs');
    ShareNonNegative(hs, false);
    SameShare(hs, hs');
    TimesMono(TotalWeight(hs), TotalWeight(hs'), Share(hs, false));
    FindingCostMono(fs, gs);
  }

  lemma SameShare(hs: seq<Health>, hs': seq<Health>)
    requires NoBetter(hs, hs')
    ensures Share(hs, false) == Share(hs', false) && |hs| == |hs'|
  {
  }

  lemma FindingCostMono(fs: seq<Finding>, gs: seq<Finding>)
    requires NoFewer(fs, gs)
    ensures FindingCost(fs) <= FindingCost(gs)
  {
    hide CountOf, Charged, Times, Charge;
    ChargeMono(CountOf(fs, Critical), CountOf(gs, Critical), PER_CRITICAL, CRITICAL_CAP);
    ChargeMono(CountOf(fs, Warning), CountOf(gs, Warning), PER_WARNING, WARNING_CAP);
    ChargeMono(CountOf(fs, Info), CountOf(gs, Info), PER_INFO, INFO_CAP);
  }

  /** Adding any finding never lowers the total. */
  lemma AddingAFindingNeverHelps(clusters: seq<string>, observed: string -> Observed, fs: seq<Finding>, i: nat,
                                 f: Finding, skew: seq<string> -> Severity)
    requires i <= |fs|
    ensures var gs := fs[..i] + [f] + fs[i..];
            FleetCost(fs, HealthsOf(clusters, observed, fs), skew) <=
            FleetCost(gs, HealthsOf(clusters, observed, gs), skew)
  {
    hide FleetCost, HealthsOf, NoFewer;
    InsertedNoFewer(fs, i, f);
    MoreNeverCostsLess(clusters, observed, fs, fs[..i] + [f] + fs[i..], skew);
  }

  /** Adding any mark never lowers the total. */
  lemma AddingAMarkNeverHelps(clusters: seq<string>, observed: string -> Observed, fs: seq<Finding>, i: nat, k: nat,
                              mark: Mark, skew: seq<string> -> Severity)
    requires i < |fs| && k <= |fs[i].marks|
    ensures var gs := WithMark(fs, i, k, mark);
            FleetCost(fs, HealthsOf(clusters, observed, fs), skew) <=
            FleetCost(gs, HealthsOf(clusters, observed, gs), skew)
  {
    hide FleetCost, HealthsOf, NoFewer;
    MarkedNoFewer(fs, i, k, mark);
    MoreNeverCostsLess(clusters, observed, fs, WithMark(fs, i, k, mark), skew);
  }
}
