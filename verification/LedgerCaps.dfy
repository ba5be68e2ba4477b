/** What each term of the cost ledger of internal/report/score_attribution.go can take from the score. */
module LedgerCaps {
  import opened FieldTable
  import opened Findings
  import opened ScoreLedger
  import opened LedgerFacts
  import opened SetFacts

  /** x is the smaller of a and b. */
  ghost predicate Least(x: real, a: real, b: real) {
    x <= a && x <= b && (x == a || x == b)
  }

  /** The cost of all the entries of a term. */
  ghost function Takes(entries: seq<Entry>, name: TermName): real {
    CostOf(entries, OfTerm(name))
  }

  // ----- One term

  /** The term, when it costs, is the one the ledger lists under its name. */
  ghost predicate Listed(terms: seq<Term>, one: seq<Term>, name: TermName) {
    |one| <= 1 && (forall t :: t in one <==> t in terms && t.name == name)
  }

  lemma TermTakes(terms: seq<Term>, entries: seq<Entry>, name: TermName, count: nat, raw: real, limit: real)
    requires Balanced(terms, entries) && Listed(terms, OneTerm(name, count, raw, limit), name) && raw >= 0.0
    ensures limit > 0.0 ==> Least(Takes(entries, name), raw, limit)
    ensures limit <= 0.0 ==> Takes(entries, name) == raw
  {
    hide CostOf;
    var one := OneTerm(name, count, raw, limit);
    if one == [] {
      assert forall t :: t in terms && t.name == name ==> t in one;
      NoneOwned(terms, entries, name);
    } else {
      assert one[0] in one && one[0] in terms;
    }
  }

  lemma OneName(name: TermName, count: nat, raw: real, limit: real)
    ensures |OneTerm(name, count, raw, limit)| <= 1
    ensures forall t :: t in OneTerm(name, count, raw, limit) ==> t.name == name
  {
  }

  /** What the ledger lists, as seven parts with their names. */
  lemma PartsNamed(fs: seq<Finding>, hs: seq<Health>, skew: seq<string> -> Severity) returns (parts: seq<seq<Term>>)
    ensures |parts| == 7
    ensures LedgerTerms(fs, hs, skew) ==
            parts[0] + parts[1] + parts[2] + parts[3] + parts[4] + parts[5] + parts[6]
    ensures parts == [SeverityTerm(fs, CriticalFindings, Critical, PER_CRITICAL, CRITICAL_CAP),
                      SeverityTerm(fs, WarningFindings, Warning, PER_WARNING, WARNING_CAP),
                      SeverityTerm(fs, InfoFindings, Info, PER_INFO, INFO_CAP), ShareTerm(hs, true),
                      ShareTerm(hs, false), SkewTerm(hs, skew), WorstTerm(hs)]
  {
    hide SeverityTerm, ShareTerm, SkewTerm, WorstTerm;
    parts := [SeverityTerm(fs, CriticalFindings, Critical, PER_CRITICAL, CRITICAL_CAP),
              SeverityTerm(fs, WarningFindings, Warning, PER_WARNING, WARNING_CAP),
              SeverityTerm(fs, InfoFindings, Info, PER_INFO, INFO_CAP), ShareTerm(hs, true),
              ShareTerm(hs, false), SkewTerm(hs, skew), WorstTerm(hs)];
  }

  /** In seven parts of at most one term each, and each under its own name, every part is what its name lists. */
  lemma EachListed(parts: seq<seq<Term>>, names: seq<TermName>, terms: seq<Term>)
    requires |parts| == 7 == |names| && forall i, j :: 0 <= i < j < 7 ==> names[i] != names[j]
    requires forall i :: 0 <= i < 7 ==> |parts[i]| <= 1 && forall t: Term :: t in parts[i] ==> t.name == names[i]
    requires terms == parts[0] + parts[1] + parts[2] + parts[3] + parts[4] + parts[5] + parts[6]
    ensures forall i :: 0 <= i < 7 ==> Listed(terms, parts[i], names[i])
  {
    forall t ensures t in terms <==> exists i :: 0 <= i < 7 && t in parts[i] {
      if t in terms {
        assert t in parts[0] || t in parts[1] || t in parts[2] || t in parts[3] || t in parts[4] || t in parts[5]
               || t in parts[6];
      }
    }
  }

  /** Every term of the ledger is the one listed under its name. */
  lemma AllListed(fs: seq<Finding>, hs: seq<Health>, skew: seq<string> -> Severity)
    ensures var terms := LedgerTerms(fs, hs, skew);
            && Listed(terms, SeverityTerm(fs, CriticalFindings, Critical, PER_CRITICAL, CRITICAL_CAP), CriticalFindings)
            && Listed(terms, SeverityTerm(fs, WarningFindings, Warning, PER_WARNING, WARNING_CAP), WarningFindings)
            && Listed(terms, SeverityTerm(fs, InfoFindings, Info, PER_INFO, INFO_CAP), InfoFindings)
            && Listed(terms, ShareTerm(hs, true), CriticalClusters)
            && Listed(terms, ShareTerm(hs, false), DegradedClusters)
            && Listed(terms, SkewTerm(hs, skew), VersionSkew) && Listed(terms, WorstTerm(hs), WorstNode)
  {
    hide OneTerm, LedgerTerms, Listed, Times, SkewTermCost, WorstFraction, Share;
    var parts := PartsNamed(fs, hs, skew);
    var names := [CriticalFindings, WarningFindings, InfoFindings, CriticalClusters, DegradedClusters, VersionSkew,
                  WorstNode];
    forall i | 0 <= i < 7 ensures |parts[i]| <= 1 && forall t: Term :: t in parts[i] ==> t.name == names[i] {
      forall name, count, raw, limit
        ensures |OneTerm(name, count, raw, limit)| <= 1
        ensures forall t :: t in OneTerm(name, count, raw, limit) ==> t.name == name
      {
        OneName(name, count, raw, limit);
      }
    }
    EachListed(parts, names, LedgerTerms(fs, hs, skew));
    assert forall i :: 0 <= i < 7 ==> Listed(LedgerTerms(fs, hs, skew), parts[i], names[i]);
  }

  lemma TimesNonNegative(n: nat, x: real)
    requires x >= 0.0
    ensures Times(n, x) >= 0.0
  {
    ProductNonNegative(n as real, x);
  }

  // ----- All terms

  /** The findings take 6, 1.5 and 0.25 points each by severity, up to 36, 24 and 5. */
  lemma FindingsTake(fs: seq<Finding>, hs: seq<Health>, skew: seq<string> -> Severity, terms: seq<Term>,
                     entries: seq<Entry>)
    requires Balanced(terms, entries) && terms == LedgerTerms(fs, hs, skew)
    ensures Least(Takes(entries, CriticalFindings), CountOf(fs, Critical) as real * 6.0, 36.0)
    ensures Least(Takes(entries, WarningFindings), CountOf(fs, Warning) as real * 1.5, 24.0)
    ensures Least(Takes(entries, InfoFindings), CountOf(fs, Info) as real * 0.25, 5.0)
  {
    hide Balanced, LedgerTerms, OneTerm, Takes, CountOf, Listed;
    AllListed(fs, hs, skew);
    var c, w, i := CountOf(fs, Critical), CountOf(fs, Warning), CountOf(fs, Info);
    TimesNonNegative(c, PER_CRITICAL);
    TimesNonNegative(w, PER_WARNING);
    TimesNonNegative(i, PER_INFO);
    TermTakes(terms, entries, CriticalFindings, c, Times(c, PER_CRITICAL), CRITICAL_CAP);
    TermTakes(terms, entries, WarningFindings, w, Times(w, PER_WARNING), WARNING_CAP);
    TermTakes(terms, entries, InfoFindings, i, Times(i, PER_INFO), INFO_CAP);
  }

  lemma {:induction false} CountPositive(fs: seq<Finding>, f: Finding)
    requires f in fs
    ensures CountOf(fs, f.severity) > 0
  {
    var k := |fs| - 1;
    if fs[k] != f { CountPositive(fs[..k], f); }
  }

  lemma Proportion(raw: real, cost: real, total: real, taken: real)
    requires total > 0.0 && cost == raw * (taken / total)
    ensures cost * total == raw * taken
  {
    var scale := taken / total;
    assert scale * total == taken;
    assert cost * total == raw * (scale * total);
  }

  /** One entry for each rule and cluster with findings of the severity, its raw cost what they cost apart. */
  ghost predicate OnePerPair(fs: seq<Finding>, name: TermName, severity: Severity, per: real, es: seq<Entry>) {
    && (forall i, j :: 0 <= i < j < |es| ==> (es[i].rule, es[i].cluster) != (es[j].rule, es[j].cluster))
    && (forall f :: f in fs && f.severity == severity ==>
          exists e :: e in es && e.rule == f.rule && e.cluster == f.cluster)
    && (forall e :: e in es ==>
          e.term == name && e.raw == CountUnder(fs, severity, e.rule, e.cluster) as real * per)
  }

  lemma PricedPairs(fs: seq<Finding>, name: TermName, severity: Severity, per: real, pairs: seq<Entry>,
                    index: map<(string, string), nat>, scale: real)
    requires Gathered(pairs, index, fs, severity, per)
    ensures OnePerPair(fs, name, severity, per, Priced(pairs, name, scale))
  {
    hide CountUnder;
    var es := Priced(pairs, name, scale);
    forall f | f in fs && f.severity == severity
      ensures exists e :: e in es && e.rule == f.rule && e.cluster == f.cluster
    {
      var k := index[(f.rule, f.cluster)];
      assert es[k] in es;
    }
  }

  lemma PricedInProportion(pairs: seq<Entry>, name: TermName, total: real, taken: real)
    requires total > 0.0
    ensures forall e :: e in Priced(pairs, name, taken / total) ==> e.cost * total == e.raw * taken
  {
    var es := Priced(pairs, name, taken / total);
    forall e | e in es ensures e.cost * total == e.raw * taken {
      var k :| 0 <= k < |es| && es[k] == e;
      Proportion(e.raw, e.cost, total, taken);
    }
  }

  lemma ChargeIsLeast(raw: real, limit: real)
    requires raw >= 0.0 && limit > 0.0
    ensures Least(Charge(raw, limit), raw, limit)
  {
  }

  /** What the entries of a severity say: one for each rule and cluster with such findings, its raw cost what they
      cost apart, and its cost in the proportion of the raw costs, so that the term costs no more than its cap. */
  lemma SeverityEntriesMean(fs: seq<Finding>, name: TermName, severity: Severity, per: real, limit: real,
                            es: seq<Entry>)
    requires SeverityPaid(fs, name, severity, per, limit, es) && per > 0.0 && limit > 0.0
    ensures OnePerPair(fs, name, severity, per, es)
    ensures var taken, total := CostOf(es, Everything()), Times(CountOf(fs, severity), per);
            Least(taken, total, limit) && forall e :: e in es ==> e.cost * total == e.raw * taken
  {
    hide Gathered, CountUnder, CountOf, CostOf, Raw, Priced, OnePerPair, Times, Charge, Least;
    var pairs, index :| Gathered(pairs, index, fs, severity, per) && Raw(pairs) == Times(CountOf(fs, severity), per)
                        && PricedTo(pairs, name, limit, es);
    var total := Times(CountOf(fs, severity), per);
    TimesNonNegative(CountOf(fs, severity), per);
    ChargeIsLeast(total, limit);
    if total <= 0.0 {
      NoneCounted(fs, severity, per);
      NothingPaid(fs, name, severity, per, es);
      NothingCharged(limit);
    } else {
      var taken := Charge(total, limit);
      PricedToCap(pairs, name, total, taken);
      PricedPairs(fs, name, severity, per, pairs, index, taken / total);
      PricedInProportion(pairs, name, total, taken);
    }
  }

  lemma NothingCharged(limit: real)
    ensures Charge(0.0, limit) == 0.0
  {
  }

  lemma NoneCounted(fs: seq<Finding>, severity: Severity, per: real)
    requires Times(CountOf(fs, severity), per) <= 0.0 && per > 0.0
    ensures forall f :: f in fs ==> f.severity != severity
  {
    forall f | f in fs ensures f.severity != severity {
      CountPositive(fs, f);
      if f.severity == severity { ProductPositive(CountOf(fs, severity) as real, per); }
    }
  }

  lemma NothingPaid(fs: seq<Finding>, name: TermName, severity: Severity, per: real, es: seq<Entry>)
    requires es == [] && forall f :: f in fs ==> f.severity != severity
    ensures CostOf(es, Everything()) == 0.0 && OnePerPair(fs, name, severity, per, es)
  {
  }

  /** The versions that count for a skew are those clusters report. */
  lemma {:induction false} VersionsMean(hs: seq<Health>, v: string)
    ensures v in VersionsOf(hs) <==> v != "" && exists h :: h in hs && h.observed.version == v
  {
    if hs != [] {
      VersionsMean(hs[..|hs| - 1], v);
      assert hs == hs[..|hs| - 1] + [hs[|hs| - 1]];
    }
  }

  lemma ShareOfCount(count: nat, size: nat, whole: real)
    requires size > 0
    ensures Times(count, whole / size as real) * size as real == count as real * whole
  {
    var share := whole / size as real;
    assert share * size as real == whole;
    assert Times(count, share) * size as real == count as real * (share * size as real);
  }

  /** The cost is to the whole as the part is to the size. */
  ghost predicate InProportion(cost: real, whole: real, part: nat, size: nat) {
    cost * size as real == part as real * whole
  }

  lemma ShareTakes(hs: seq<Health>, critical: bool, terms: seq<Term>, entries: seq<Entry>, name: TermName)
    requires Balanced(terms, entries) && Listed(terms, ShareTerm(hs, critical), name) && hs != []
    requires name == if critical then CriticalClusters else DegradedClusters
    ensures InProportion(Takes(entries, name), if critical then 20.0 else 10.0, CountStatus(hs, critical), |hs|)
  {
    hide Balanced, OneTerm, Takes, CountStatus, Listed, Times;
    var count := CountStatus(hs, critical);
    ShareNonNegative(hs, critical);
    TimesNonNegative(count, Share(hs, critical));
    TermTakes(terms, entries, name, count, Times(count, Share(hs, critical)), 0.0);
    ShareOfCount(count, |hs|, if critical then 20.0 else 10.0);
  }

  /** A fleet that is all critical loses 20 points, one all degraded 10, and a mixed one in proportion. */
  lemma ClustersTake(fs: seq<Finding>, hs: seq<Health>, skew: seq<string> -> Severity, terms: seq<Term>,
                     entries: seq<Entry>)
    requires Balanced(terms, entries) && terms == LedgerTerms(fs, hs, skew) && hs != []
    ensures InProportion(Takes(entries, CriticalClusters), 20.0, CountStatus(hs, true), |hs|)
    ensures InProportion(Takes(entries, DegradedClusters), 10.0, CountStatus(hs, false), |hs|)
  {
    hide Balanced, LedgerTerms, ShareTerm, Takes, CountStatus, Listed, InProportion;
    AllListed(fs, hs, skew);
    ShareTakes(hs, true, terms, entries, CriticalClusters);
    ShareTakes(hs, false, terms, entries, DegradedClusters);
  }

  /** A version skew takes 10 points when it is critical and 3 when it is a warning, the worst node 10 points in
      proportion to how much of its cluster is unhealthy. */
  lemma FleetTakes(fs: seq<Finding>, hs: seq<Health>, skew: seq<string> -> Severity, terms: seq<Term>,
                   entries: seq<Entry>)
    requires Balanced(terms, entries) && terms == LedgerTerms(fs, hs, skew)
    ensures Takes(entries, VersionSkew) ==
            if |hs| >= 2 && skew(VersionsOf(hs)) == Critical then 10.0
            else if |hs| >= 2 && skew(VersionsOf(hs)) == Warning then 3.0
            else 0.0
    ensures Takes(entries, WorstNode) == 10.0 * WorstFraction(hs)
  {
    hide Balanced, LedgerTerms, OneTerm, Takes, Listed, VersionsOf, WorstFraction;
    AllListed(fs, hs, skew);
    FractionsSoFar(hs);
    TermTakes(terms, entries, VersionSkew, 1, SkewTermCost(hs, skew), 0.0);
    TermTakes(terms, entries, WorstNode, 1, WORST_NODE_CAP * WorstFraction(hs), 0.0);
  }

  ghost function OfSeverity(severity: Severity): Finding -> bool {
    (f: Finding) => f.severity == severity
  }

  ghost function OfStatus(status: Status): Health -> bool {
    (h: Health) => h.status == status
  }

  /** The count is that of the findings of the severity. */
  lemma {:induction false} CountMeans(fs: seq<Finding>, severity: Severity)
    ensures CountOf(fs, severity) == |Places(fs, OfSeverity(severity))|
  {
    hide Places;
    if fs == [] {
      NoPlaces(fs, OfSeverity(severity));
    } else {
      CountMeans(fs[..|fs| - 1], severity);
      PlacesMore(fs, OfSeverity(severity));
    }
  }

  lemma NoPlaces<T>(s: seq<T>, p: T -> bool)
    requires s == []
    ensures Places(s, p) == {}
  {
  }

  /** Every critical cluster pays the critical share, every degraded or strained one the degraded share. */
  lemma {:induction false} PayersMean(hs: seq<Health>)
    ensures CountStatus(hs, true) == |Places(hs, OfStatus(CriticalCluster))|
    ensures CountStatus(hs, false) ==
            |Places(hs, OfStatus(DegradedCluster))| + |Places(hs, OfStatus(StrainedCluster))|
  {
    hide Places;
    if hs == [] {
      NoPlaces(hs, OfStatus(CriticalCluster));
      NoPlaces(hs, OfStatus(DegradedCluster));
      NoPlaces(hs, OfStatus(StrainedCluster));
    } else {
      PayersMean(hs[..|hs| - 1]);
      PlacesMore(hs, OfStatus(CriticalCluster));
      PlacesMore(hs, OfStatus(DegradedCluster));
      PlacesMore(hs, OfStatus(StrainedCluster));
    }
  }

  // ----- The worst node

  /** The fraction of the cluster's nodes is that of its unhealthy ones, or more. */
  ghost predicate IsShare(x: real, o: Observed) {
    x * o.nodeCount as real == (o.nodeCount - o.healthyNodes) as real
  }

  ghost predicate AtLeastShare(x: real, o: Observed) {
    x * o.nodeCount as real >= (o.nodeCount - o.healthyNodes) as real
  }

  lemma FractionMeans(o: Observed)
    requires 0 <= o.healthyNodes <= o.nodeCount
    ensures 0.0 <= UnhealthyFraction(o) <= 1.0 && IsShare(UnhealthyFraction(o), o)
  {
  }

  lemma {:induction false} WorstIsOnes(hs: seq<Health>)
    requires WorstFraction(hs) > 0.0
    ensures exists i :: 0 <= i < |hs| && UnhealthyFraction(hs[i].observed) == WorstFraction(hs)
  {
    hide UnhealthyFraction;
    var k := |hs| - 1;
    if UnhealthyFraction(hs[k].observed) != WorstFraction(hs) {
      WorstIsOnes(hs[..k]);
      var i :| 0 <= i < k && UnhealthyFraction(hs[..k][i].observed) == WorstFraction(hs[..k]);
      assert hs[i] == hs[..k][i];
    }
  }

  /** The worst fraction is the largest share of its nodes that any cluster has unhealthy. */
  lemma WorstFractionMeans(hs: seq<Health>)
    requires forall i :: 0 <= i < |hs| ==> 0 <= hs[i].observed.healthyNodes <= hs[i].observed.nodeCount
    ensures 0.0 <= WorstFraction(hs) <= 1.0
    ensures forall i :: 0 <= i < |hs| ==> AtLeastShare(WorstFraction(hs), hs[i].observed)
    ensures WorstFraction(hs) > 0.0 ==> exists i :: 0 <= i < |hs| && IsShare(WorstFraction(hs), hs[i].observed)
  {
    hide WorstFraction, UnhealthyFraction, IsShare, AtLeastShare;
    FractionsSoFar(hs);
    forall i | 0 <= i < |hs|
      ensures UnhealthyFraction(hs[i].observed) <= 1.0 && IsShare(UnhealthyFraction(hs[i].observed), hs[i].observed)
      ensures AtLeastShare(WorstFraction(hs), hs[i].observed)
    {
      FractionMeans(hs[i].observed);
      MoreIsAtLeast(UnhealthyFraction(hs[i].observed), WorstFraction(hs), hs[i].observed);
    }
    if WorstFraction(hs) > 0.0 {
      WorstIsOnes(hs);
    }
  }

  lemma MoreIsAtLeast(x: real, y: real, o: Observed)
    requires IsShare(x, o) && x <= y && o.nodeCount >= 0
    ensures AtLeastShare(y, o)
  {
    ScaleMono(x, y, o.nodeCount);
  }

  lemma ScaleMono(x: real, y: real, n: int)
    requires x <= y && n >= 0
    ensures x * n as real <= y * n as real
  {
    ProductNonNegative(y - x, n as real);
    assert (y - x) * n as real == y * n as real - x * n as real;
  }

  // ----- The whole score

  lemma {:induction false} CountWithin(hs: seq<Health>)
    ensures CountStatus(hs, true) + CountStatus(hs, false) <= |hs|
  {
    if hs != [] { CountWithin(hs[..|hs| - 1]); }
  }

  lemma WeightWithin(hs: seq<Health>)
    ensures TotalWeight(hs) <= 2 * |hs|
  {
    WeightCounts(hs);
    CountWithin(hs);
  }

  /** The clusters cost at most what they do when all are critical. */
  lemma StatusWithin(hs: seq<Health>)
    ensures StatusCost(hs) <= 20.0
  {
    hide Times, StatusCost, TotalWeight, Share;
    StatusCostIsWeight(hs);
    WeightWithin(hs);
    ShareNonNegative(hs, false);
    TimesMono(TotalWeight(hs), 2 * |hs|, Share(hs, false));
    AllShares(hs);
  }

  lemma AllShares(hs: seq<Health>)
    ensures Times(2 * |hs|, Share(hs, false)) <= 20.0
  {
    if hs == [] {
      NoTimes(Share(hs, false));
    } else {
      assert Share(hs, false) * |hs| as real == 10.0;
      assert (2 * |hs|) as real == 2.0 * |hs| as real;
    }
  }

  lemma FindingsWithin(fs: seq<Finding>)
    ensures FindingCost(fs) <= 65.0
  {
    hide Times, CountOf;
  }

  /** No fleet loses more than 105 points. */
  lemma TotalBounded(fs: seq<Finding>, hs: seq<Health>, skew: seq<string> -> Severity)
    requires forall i :: 0 <= i < |hs| ==> 0 <= hs[i].observed.healthyNodes <= hs[i].observed.nodeCount
    ensures FleetCost(fs, hs, skew) <= 105.0
  {
    hide FindingCost, StatusCost, WorstFraction, VersionsOf;
    FindingsWithin(fs);
    StatusWithin(hs);
    WorstFractionMeans(hs);
  }
}
